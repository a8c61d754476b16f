/**
  The tag mapper: objects of registered classes become tags on the way out and come back
  on the way in.  The rewrites on values; `TagMapperHeap` has the one that works in place.
 */
module TagMapper {
  import opened Prelude
  import opened Values
  import opened Wire
  import opened Encoding
  import opened RoundTrip
  import C = CGrammar
  import CCompleteness
  import Py = PyGrammar
  import Interop
  import EncodedBytes

  /**
    One registered tag.  Without a class or an encode function it only decodes.  The
    functions give None where they raise.
   */
  datatype ClassTag = ClassTag(
    tagNumber: int,
    isInstance: Option<Value -> bool>,
    encode: Option<Value -> Option<Value>>,
    decode: Value -> Option<Value>)

  datatype Mapper = Mapper(classTags: seq<ClassTag>, raiseOnUnknownTag: bool)

  // ---------- Encoding ----------

  predicate Matches(ct: ClassTag, v: Value) {
    ct.isInstance.Some? && ct.encode.Some? && ct.isInstance.value(v)
  }

  function FirstMatch(cts: seq<ClassTag>, v: Value): (r: Option<ClassTag>)
    ensures r.Some? ==> r.value in cts && Matches(r.value, v)
  {
    if cts == [] then None
    else if Matches(cts[0], v) then Some(cts[0])
    else FirstMatch(cts[1..], v)
  }

  /** Of several classes that match, the one registered first wins. */
  lemma {:induction false} FirstMatchWins(cts: seq<ClassTag>, v: Value, i: nat)
    requires i <= |cts| && forall j :: 0 <= j < i ==> !Matches(cts[j], v)
    ensures i < |cts| && Matches(cts[i], v) ==> FirstMatch(cts, v) == Some(cts[i])
    ensures i == |cts| ==> FirstMatch(cts, v) == None
  {
    if i > 0 {
      assert !Matches(cts[0], v);
      assert forall j :: 0 <= j < |cts[1..]| ==> cts[1..][j] == cts[j + 1];
      FirstMatchWins(cts[1..], v, i - 1);
    }
  }

  function Encode(tm: Mapper, v: Value): Option<Value> {
    var ct := FirstMatch(tm.classTags, v);
    if ct.Some? then
      var e := ct.value.encode.value(v);
      if e.Some? then Some(Tag(ct.value.tagNumber, e.value)) else None
    else
      match v
      case List(items, _) =>
        var es := EncodeAll(tm, items);
        if es.Some? then Some(List(es.value, false)) else None
      case Dict(entries) =>
        var es := EncodeEntries(tm, entries);
        if es.Some? then Some(Dict(es.value)) else None
      case _ => Some(v)
  }

  function EncodeAll(tm: Mapper, vs: seq<Value>): Option<seq<Value>> {
    if vs == [] then Some([]) else Both(Encode(tm, vs[0]), EncodeAll(tm, vs[1..]))
  }

  function EncodeEntries(tm: Mapper, es: seq<Entry>): (r: Option<seq<Entry>>)
    ensures r.Some? ==> |r.value| == |es| && forall i :: 0 <= i < |es| ==> r.value[i].key == es[i].key
  {
    if es == [] then Some([]) else WithVal(es[0].key, EncodeEntry(tm, es[0]), EncodeEntries(tm, es[1..]))
  }

  function EncodeEntry(tm: Mapper, e: Entry): Option<Value> {
    Encode(tm, e.val)
  }

  /** An entry in front of others. */
  function WithVal(k: Value, v: Option<Value>, more: Option<seq<Entry>>): (r: Option<seq<Entry>>)
    ensures r.Some? ==> v.Some? && more.Some? && r.value == [Entry(k, v.value)] + more.value
  {
    if v.Some? && more.Some? then Some([Entry(k, v.value)] + more.value) else None
  }

  // ---------- Decoding ----------

  /** A tag with a number, or with None for it. */
  function TagOf(num: Option<int>, item: Value): Value {
    match num case Some(n) => Tag(n, item) case None => BareTag(item)
  }

  function Lookup(cts: seq<ClassTag>, num: Option<int>): (r: Option<ClassTag>)
    ensures r.Some? ==> r.value in cts && Some(r.value.tagNumber) == num
    ensures r.None? ==> forall ct :: ct in cts ==> Some(ct.tagNumber) != num
  {
    if cts == [] then None
    else if Some(cts[0].tagNumber) == num then Some(cts[0])
    else
      assert cts == [cts[0]] + cts[1..];
      Lookup(cts[1..], num)
  }

  /** A tag is decoded, passed through or refused; what it holds is not walked over. */
  function DecodeTag(tm: Mapper, num: Option<int>, item: Value): Option<Value> {
    match Lookup(tm.classTags, num)
    case Some(ct) => ct.decode(item)
    case None => if tm.raiseOnUnknownTag then None else Some(TagOf(num, item))
  }

  function Decode(tm: Mapper, v: Value): Option<Value> {
    match v
    case Tag(num, item) => DecodeTag(tm, Some(num), item)
    case BareTag(item) => DecodeTag(tm, None, item)
    case List(items, frozen) =>
      if frozen then Some(v)
      else
        var ds := DecodeAll(tm, items);
        if ds.Some? then Some(List(ds.value, false)) else None
    case Dict(entries) =>
      var ds := DecodeEntries(tm, entries);
      if ds.Some? then Some(Dict(ds.value)) else None
    case _ => Some(v)
  }

  function DecodeAll(tm: Mapper, vs: seq<Value>): (r: Option<seq<Value>>)
    ensures r.Some? ==> |r.value| == |vs|
  {
    if vs == [] then Some([]) else Both(Decode(tm, vs[0]), DecodeAll(tm, vs[1..]))
  }

  function DecodeEntries(tm: Mapper, es: seq<Entry>): (r: Option<seq<Entry>>)
    ensures r.Some? ==> |r.value| == |es| && forall i :: 0 <= i < |es| ==> r.value[i].key == es[i].key
  {
    if es == [] then Some([]) else WithVal(es[0].key, DecodeEntry(tm, es[0]), DecodeEntries(tm, es[1..]))
  }

  function DecodeEntry(tm: Mapper, e: Entry): Option<Value> {
    Decode(tm, e.val)
  }

  // ---------- Which tags matter ----------

  /** Some tag of `v`, not inside another tag or a tuple, satisfies `bad`. */
  predicate Meets(v: Value, bad: (Option<int>, Value) -> bool) {
    match v
    case Tag(num, item) => bad(Some(num), item)
    case BareTag(item) => bad(None, item)
    case List(items, frozen) => !frozen && exists i :: 0 <= i < |items| && Meets(items[i], bad)
    case Dict(entries) => exists i :: 0 <= i < |entries| && Meets(entries[i].val, bad)
    case _ => false
  }

  /** Decoding raises exactly where the walk meets a tag that is refused or fails to decode. */
  lemma {:induction false} DecodeRaises(tm: Mapper, v: Value)
    ensures Decode(tm, v).None? <==> Meets(v, (num, item) => DecodeTag(tm, num, item).None?)
    decreases v
  {
    match v
    case List(items, _) => DecodeAllRaises(tm, items);
    case Dict(entries) => DecodeEntriesRaises(tm, entries);
    case _ =>
  }

  lemma {:induction false} DecodeAllRaises(tm: Mapper, vs: seq<Value>)
    ensures DecodeAll(tm, vs).None? <==>
            exists i :: 0 <= i < |vs| && Meets(vs[i], (num, item) => DecodeTag(tm, num, item).None?)
    decreases vs
  {
    if vs != [] {
      DecodeRaises(tm, vs[0]);
      DecodeAllRaises(tm, vs[1..]);
      assert forall i :: 0 <= i < |vs[1..]| ==> vs[1..][i] == vs[i + 1];
      assert forall i :: 1 <= i < |vs| ==> vs[i] == vs[1..][i - 1];
    }
  }

  lemma {:induction false} DecodeEntriesRaises(tm: Mapper, es: seq<Entry>)
    ensures DecodeEntries(tm, es).None? <==>
            exists i :: 0 <= i < |es| && Meets(es[i].val, (num, item) => DecodeTag(tm, num, item).None?)
    decreases es
  {
    if es != [] {
      assert es decreases to es[0];
      DecodeRaises(tm, es[0].val);
      DecodeEntriesRaises(tm, es[1..]);
      assert forall i :: 0 <= i < |es[1..]| ==> es[1..][i] == es[i + 1];
      assert forall i :: 1 <= i < |es| ==> es[i] == es[1..][i - 1];
    }
  }

  predicate Unregistered(tm: Mapper, num: Option<int>) {
    Lookup(tm.classTags, num).None?
  }

  /** Two tests for tags that agree on every tag meet the same values. */
  lemma {:induction false} MeetsAlike(v: Value, f: (Option<int>, Value) -> bool, g: (Option<int>, Value) -> bool)
    requires forall num, item :: f(num, item) <==> g(num, item)
    ensures Meets(v, f) <==> Meets(v, g)
    decreases v
  {
    match v
    case List(items, _) =>
      forall i | 0 <= i < |items| ensures Meets(items[i], f) <==> Meets(items[i], g) {
        MeetsAlike(items[i], f, g);
      }
    case Dict(entries) =>
      forall i | 0 <= i < |entries| ensures Meets(entries[i].val, f) <==> Meets(entries[i].val, g) {
        assert entries decreases to entries[i];
        MeetsAlike(entries[i].val, f, g);
      }
    case _ =>
  }

  /**
    Where the registered decode functions do not raise, decoding raises if and only if
    that is asked for and the walk meets a tag with an unregistered number.
   */
  lemma UnknownTagVerdict(tm: Mapper, v: Value)
    requires forall ct, item :: ct in tm.classTags ==> ct.decode(item).Some?
    ensures Decode(tm, v).None? <==>
            tm.raiseOnUnknownTag && Meets(v, (num, item) => Unregistered(tm, num))
  {
    DecodeRaises(tm, v);
    if tm.raiseOnUnknownTag {
      MeetsAlike(v, (num, item) => DecodeTag(tm, num, item).None?, (num, item) => Unregistered(tm, num));
    } else {
      MeetsAlike(v, (num, item) => DecodeTag(tm, num, item).None?, (num, item) => false);
      MeetsNothing(v);
    }
  }

  lemma {:induction false} MeetsNothing(v: Value)
    ensures !Meets(v, (num, item) => false)
    decreases v
  {
    match v
    case List(items, _) =>
      forall i | 0 <= i < |items| ensures !Meets(items[i], (num, item) => false) {
        MeetsNothing(items[i]);
      }
    case Dict(entries) =>
      forall i | 0 <= i < |entries| ensures !Meets(entries[i].val, (num, item) => false) {
        assert entries decreases to entries[i];
        MeetsNothing(entries[i].val);
      }
    case _ =>
  }

  /** Unregistered tags stay as they are, wherever they are, unless they are refused. */
  lemma {:induction false} UnknownTagsPass(tm: Mapper, v: Value)
    requires !tm.raiseOnUnknownTag && !Meets(v, (num, item) => !Unregistered(tm, num))
    ensures Decode(tm, v) == Some(v)
    decreases v
  {
    match v
    case List(items, frozen) =>
      if !frozen {
        UnknownTagsPassAll(tm, items);
      }
    case Dict(entries) => UnknownTagsPassEntries(tm, entries);
    case _ =>
  }

  lemma {:induction false} UnknownTagsPassAll(tm: Mapper, vs: seq<Value>)
    requires !tm.raiseOnUnknownTag
    requires forall i :: 0 <= i < |vs| ==> !Meets(vs[i], (num, item) => !Unregistered(tm, num))
    ensures DecodeAll(tm, vs) == Some(vs)
    decreases vs
  {
    if vs != [] {
      UnknownTagsPass(tm, vs[0]);
      UnknownTagsPassAll(tm, vs[1..]);
      assert vs == [vs[0]] + vs[1..];
    }
  }

  lemma {:induction false} UnknownTagsPassEntries(tm: Mapper, es: seq<Entry>)
    requires !tm.raiseOnUnknownTag
    requires forall i :: 0 <= i < |es| ==> !Meets(es[i].val, (num, item) => !Unregistered(tm, num))
    ensures DecodeEntries(tm, es) == Some(es)
    decreases es
  {
    if es != [] {
      assert es decreases to es[0];
      UnknownTagsPass(tm, es[0].val);
      UnknownTagsPassEntries(tm, es[1..]);
      assert es == [Entry(es[0].key, es[0].val)] + es[1..];
    }
  }

  // ---------- There and back ----------

  /**
    What makes an object come back: the tag of each object of a registered class is decoded
    to that object, and every other tag, which the mapper did not make, to itself.
   */
  ghost predicate Restorable(tm: Mapper, v: Value) {
    match FirstMatch(tm.classTags, v)
    case Some(ct) =>
      var e := ct.encode.value(v);
      e.Some? && DecodeTag(tm, Some(ct.tagNumber), Norm(e.value)) == Some(v)
    case None =>
      match v
      case List(items, _) => forall i :: 0 <= i < |items| ==> Restorable(tm, items[i])
      case Dict(entries) =>
        && ScalarKeys(entries)
        && forall i :: 0 <= i < |entries| ==> RestorableEntry(tm, entries[i])
      case Tag(num, item) => DecodeTag(tm, Some(num), Norm(item)) == Some(Norm(v))
      case BareTag(item) => DecodeTag(tm, None, Norm(item)) == Some(Norm(v))
      case _ => true
  }

  ghost predicate RestorableEntry(tm: Mapper, e: Entry) {
    Restorable(tm, e.val)
  }

  /** `v` with lists for tuples, except inside the objects of registered classes. */
  function Settled(tm: Mapper, v: Value): Value {
    if FirstMatch(tm.classTags, v).Some? then v
    else
      match v
      case List(items, _) => List(SettledAll(tm, items), false)
      case Dict(entries) => Dict(SettledEntries(tm, entries))
      case _ => Norm(v)
  }

  function SettledAll(tm: Mapper, vs: seq<Value>): (r: seq<Value>)
    ensures |r| == |vs|
  {
    if vs == [] then [] else [Settled(tm, vs[0])] + SettledAll(tm, vs[1..])
  }

  function SettledEntries(tm: Mapper, es: seq<Entry>): (r: seq<Entry>)
    ensures |r| == |es|
  {
    if es == [] then [] else [SettledEntry(tm, es[0])] + SettledEntries(tm, es[1..])
  }

  function SettledEntry(tm: Mapper, e: Entry): Entry {
    Entry(e.key, Settled(tm, e.val))
  }

  /** An object without tuples is settled. */
  lemma {:induction false} SettledAlready(tm: Mapper, v: Value)
    requires Norm(v) == v
    ensures Settled(tm, v) == v
    decreases v
  {
    if FirstMatch(tm.classTags, v).None? {
      match v
      case List(items, _) => SettledAlreadyAll(tm, items);
      case Dict(entries) => SettledAlreadyEntries(tm, entries);
      case _ =>
    }
  }

  lemma {:induction false} SettledAlreadyAll(tm: Mapper, vs: seq<Value>)
    requires NormAll(vs) == vs
    ensures SettledAll(tm, vs) == vs
    decreases vs
  {
    if vs != [] {
      assert vs[0] == NormAll(vs)[0] && vs[1..] == NormAll(vs)[1..] == NormAll(vs[1..]);
      SettledAlready(tm, vs[0]);
      SettledAlreadyAll(tm, vs[1..]);
    }
  }

  lemma {:induction false} SettledAlreadyEntries(tm: Mapper, es: seq<Entry>)
    requires NormEntries(es) == es
    ensures SettledEntries(tm, es) == es
    decreases es
  {
    if es != [] {
      assert es decreases to es[0];
      assert es[0] == NormEntries(es)[0] && es[1..] == NormEntries(es)[1..] == NormEntries(es[1..]);
      SettledAlready(tm, es[0].val);
      SettledAlreadyEntries(tm, es[1..]);
    }
  }

  /** Decoding undoes encoding and the loss of tuples between them. */
  lemma {:induction false} DecodeUndoesEncode(tm: Mapper, v: Value)
    requires Restorable(tm, v)
    ensures Encode(tm, v).Some? && Decode(tm, Norm(Encode(tm, v).value)) == Some(Settled(tm, v))
    decreases v
  {
    var ct := FirstMatch(tm.classTags, v);
    if ct.None? {
      match v
      case List(items, _) => UndoesAll(tm, items);
      case Dict(entries) => UndoesEntries(tm, entries);
      case _ =>
    }
  }

  /** Exactly the restorable objects come back. */
  lemma {:induction false} RestoredExactly(tm: Mapper, v: Value)
    requires Valid(v)
    ensures Restorable(tm, v) <==>
            Encode(tm, v).Some? && Decode(tm, Norm(Encode(tm, v).value)) == Some(Settled(tm, v))
    decreases v
  {
    if Restorable(tm, v) {
      DecodeUndoesEncode(tm, v);
    } else if FirstMatch(tm.classTags, v).None? && Encode(tm, v).Some? {
      match v
      case List(items, _) =>
        NotRestoredAll(tm, items);
        NotRestoredList(tm, v);
      case Dict(entries) =>
        NotRestoredEntries(tm, entries);
        NotRestoredDict(tm, v);
      case _ =>
    }
  }

  lemma NotRestoredList(tm: Mapper, v: Value)
    requires v.List? && FirstMatch(tm.classTags, v).None?
    requires var es := EncodeAll(tm, v.items);
             es.Some? && DecodeAll(tm, NormAll(es.value)) != Some(SettledAll(tm, v.items))
    ensures Encode(tm, v).Some? && Decode(tm, Norm(Encode(tm, v).value)) != Some(Settled(tm, v))
  {
  }

  lemma NotRestoredDict(tm: Mapper, v: Value)
    requires v.Dict? && FirstMatch(tm.classTags, v).None?
    requires var fs := EncodeEntries(tm, v.entries);
             fs.Some? && DecodeEntries(tm, NormEntries(fs.value)) != Some(SettledEntries(tm, v.entries))
    ensures Encode(tm, v).Some? && Decode(tm, Norm(Encode(tm, v).value)) != Some(Settled(tm, v))
  {
  }

  lemma {:induction false} NotRestoredAll(tm: Mapper, vs: seq<Value>)
    requires (forall i :: 0 <= i < |vs| ==> Valid(vs[i])) && exists i :: 0 <= i < |vs| && !Restorable(tm, vs[i])
    ensures var es := EncodeAll(tm, vs);
            es.Some? ==> DecodeAll(tm, NormAll(es.value)) != Some(SettledAll(tm, vs))
    decreases vs
  {
    var i :| 0 <= i < |vs| && !Restorable(tm, vs[i]);
    var es := EncodeAll(tm, vs);
    RestoredExactly(tm, vs[0]);
    if es.Some? {
      var e, more := Encode(tm, vs[0]).value, EncodeAll(tm, vs[1..]).value;
      assert ([e] + more)[1..] == more;
      assert NormAll([e] + more)[1..] == NormAll(more);
      if i > 0 && DecodeAll(tm, NormAll(es.value)) == Some(SettledAll(tm, vs)) {
        assert vs[1..][i - 1] == vs[i];
        NotRestoredAll(tm, vs[1..]);
        SplitEqual(Decode(tm, Norm(e)), DecodeAll(tm, NormAll(more)), Settled(tm, vs[0]), SettledAll(tm, vs[1..]));
      } else if i == 0 && DecodeAll(tm, NormAll(es.value)) == Some(SettledAll(tm, vs)) {
        SplitEqual(Decode(tm, Norm(e)), DecodeAll(tm, NormAll(more)), Settled(tm, vs[0]), SettledAll(tm, vs[1..]));
      }
    }
  }

  lemma SplitEqual(a: Option<Value>, b: Option<seq<Value>>, v: Value, vs: seq<Value>)
    requires Both(a, b) == Some([v] + vs)
    ensures a == Some(v) && b == Some(vs)
  {
    BothEqual(a, b, v, vs);
  }

  lemma {:induction false} NotRestoredEntries(tm: Mapper, es: seq<Entry>)
    requires ScalarKeys(es) && forall i :: 0 <= i < |es| ==> Valid(es[i].val)
    requires exists i :: 0 <= i < |es| && !RestorableEntry(tm, es[i])
    ensures var fs := EncodeEntries(tm, es);
            fs.Some? ==> DecodeEntries(tm, NormEntries(fs.value)) != Some(SettledEntries(tm, es))
    decreases es
  {
    var i :| 0 <= i < |es| && !RestorableEntry(tm, es[i]);
    assert es decreases to es[0];
    RestoredExactly(tm, es[0].val);
    var fs := EncodeEntries(tm, es);
    if fs.Some? && DecodeEntries(tm, NormEntries(fs.value)) == Some(SettledEntries(tm, es)) {
      FirstRestored(tm, es);
      if i > 0 {
        assert es[1..][i - 1] == es[i];
        NotRestoredEntries(tm, es[1..]);
      }
    }
  }

  /** If the entries come back, so do the first one and the others. */
  lemma FirstRestored(tm: Mapper, es: seq<Entry>)
    requires es != [] && ScalarKeys(es) && EncodeEntries(tm, es).Some?
    requires DecodeEntries(tm, NormEntries(EncodeEntries(tm, es).value)) == Some(SettledEntries(tm, es))
    ensures var e := Encode(tm, es[0].val); e.Some? && Decode(tm, Norm(e.value)) == Some(Settled(tm, es[0].val))
    ensures var fs := EncodeEntries(tm, es[1..]);
            fs.Some? && DecodeEntries(tm, NormEntries(fs.value)) == Some(SettledEntries(tm, es[1..]))
  {
    var e, fs := EncodeEntry(tm, es[0]), EncodeEntries(tm, es[1..]);
    assert EncodeEntries(tm, es) == WithVal(es[0].key, e, fs);
    var f := Entry(es[0].key, e.value);
    NormCons(f, fs.value);
    assert Scalar(f.key);
    DecodeCons(tm, Entry(f.key, Norm(f.val)), NormEntries(fs.value));
    var d, ds := Decode(tm, Norm(f.val)).value, DecodeEntries(tm, NormEntries(fs.value)).value;
    assert ([Entry(f.key, d)] + ds)[0] == SettledEntries(tm, es)[0];
    assert ([Entry(f.key, d)] + ds)[1..] == SettledEntries(tm, es)[1..] == SettledEntries(tm, es[1..]);
  }

  lemma {:induction false} UndoesAll(tm: Mapper, vs: seq<Value>)
    requires forall i :: 0 <= i < |vs| ==> Restorable(tm, vs[i])
    ensures var es := EncodeAll(tm, vs);
            es.Some? && DecodeAll(tm, NormAll(es.value)) == Some(SettledAll(tm, vs))
    decreases vs
  {
    if vs != [] {
      DecodeUndoesEncode(tm, vs[0]);
      UndoesAll(tm, vs[1..]);
      var e, es := Encode(tm, vs[0]).value, EncodeAll(tm, vs[1..]).value;
      assert ([e] + es)[1..] == es;
      assert NormAll([e] + es)[1..] == NormAll(es);
    }
  }

  lemma {:induction false} UndoesEntries(tm: Mapper, es: seq<Entry>)
    requires ScalarKeys(es) && forall i :: 0 <= i < |es| ==> RestorableEntry(tm, es[i])
    ensures var fs := EncodeEntries(tm, es);
            fs.Some? && DecodeEntries(tm, NormEntries(fs.value)) == Some(SettledEntries(tm, es))
    decreases es
  {
    if es != [] {
      assert es decreases to es[0];
      assert RestorableEntry(tm, es[0]);
      DecodeUndoesEncode(tm, es[0].val);
      UndoesEntries(tm, es[1..]);
      var f, fs := Entry(es[0].key, Encode(tm, es[0].val).value), EncodeEntries(tm, es[1..]).value;
      assert EncodeEntries(tm, es) == Some([f] + fs);
      NormCons(f, fs);
      assert Scalar(f.key);
      DecodeCons(tm, Entry(f.key, Norm(f.val)), NormEntries(fs));
    }
  }

  lemma NormCons(e: Entry, es: seq<Entry>)
    ensures NormEntries([e] + es) == [Entry(Norm(e.key), Norm(e.val))] + NormEntries(es)
  {
    assert ([e] + es)[1..] == es;
  }

  lemma DecodeCons(tm: Mapper, e: Entry, es: seq<Entry>)
    ensures DecodeEntries(tm, [e] + es) == WithVal(e.key, Decode(tm, e.val), DecodeEntries(tm, es))
  {
    assert ([e] + es)[1..] == es;
  }

  /** Of several entries with a number, the one registered first decodes it. */
  lemma {:induction false} LookupFirst(cts: seq<ClassTag>, num: int, i: nat)
    requires i <= |cts| && forall j :: 0 <= j < i ==> cts[j].tagNumber != num
    ensures i < |cts| && cts[i].tagNumber == num ==> Lookup(cts, Some(num)) == Some(cts[i])
    ensures i == |cts| ==> Lookup(cts, Some(num)) == None
  {
    if i > 0 {
      assert cts[0].tagNumber != num;
      assert forall j :: 0 <= j < |cts[1..]| ==> cts[1..][j] == cts[j + 1];
      LookupFirst(cts[1..], num, i - 1);
    }
  }

  // ---------- What the fields of the registered classes decide ----------

  /**
    The first entry that has a class and an encode function, and whose class the object is
    an instance of, makes it its tag; where its encode function raises, so does the mapper.
   */
  lemma EncodesInstance(tm: Mapper, v: Value, i: nat)
    requires var cts := tm.classTags;
             && i < |cts|
             && cts[i].isInstance.Some? && cts[i].encode.Some? && cts[i].isInstance.value(v)
             && forall j :: 0 <= j < i ==> cts[j].isInstance.None? || cts[j].encode.None? || !cts[j].isInstance.value(v)
    ensures var ct := tm.classTags[i];
            var e := ct.encode.value(v);
            Encode(tm, v) == if e.Some? then Some(Tag(ct.tagNumber, e.value)) else None
  {
    FirstMatchWins(tm.classTags, v, i);
  }

  /** Every other object stays what it is; lists and dicts are rewritten element by element. */
  lemma EncodesOther(tm: Mapper, v: Value)
    requires var cts := tm.classTags;
             forall j :: 0 <= j < |cts| ==> cts[j].isInstance.None? || cts[j].encode.None? || !cts[j].isInstance.value(v)
    ensures !v.List? && !v.Dict? ==> Encode(tm, v) == Some(v)
    ensures v.List? ==>
              var r := Encode(tm, v);
              && (r.Some? <==> forall k :: 0 <= k < |v.items| ==> Encode(tm, v.items[k]).Some?)
              && (r.Some? ==> r.value.List? && !r.value.frozen && |r.value.items| == |v.items|)
              && (r.Some? ==> forall k :: 0 <= k < |v.items| ==> Encode(tm, v.items[k]) == Some(r.value.items[k]))
    ensures v.Dict? ==>
              var r := Encode(tm, v);
              && (r.Some? <==> forall k :: 0 <= k < |v.entries| ==> Encode(tm, v.entries[k].val).Some?)
              && (r.Some? ==> r.value.Dict? && |r.value.entries| == |v.entries|)
              && (r.Some? ==> forall k :: 0 <= k < |v.entries| ==> r.value.entries[k].key == v.entries[k].key)
              && (r.Some? ==> forall k :: 0 <= k < |v.entries| ==>
                                Encode(tm, v.entries[k].val) == Some(r.value.entries[k].val))
  {
    FirstMatchWins(tm.classTags, v, |tm.classTags|);
    if v.List? {
      EncodesEach(tm, v.items);
    } else if v.Dict? {
      EncodesEachEntry(tm, v.entries);
    }
  }

  lemma {:induction false} EncodesEach(tm: Mapper, vs: seq<Value>)
    ensures var r := EncodeAll(tm, vs);
            && (r.Some? <==> forall k :: 0 <= k < |vs| ==> Encode(tm, vs[k]).Some?)
            && (r.Some? ==> |r.value| == |vs| && forall k :: 0 <= k < |vs| ==> Encode(tm, vs[k]) == Some(r.value[k]))
    decreases vs
  {
    if vs != [] {
      EncodesEach(tm, vs[1..]);
      assert forall k :: 1 <= k < |vs| ==> vs[k] == vs[1..][k - 1];
      assert forall k :: 0 <= k < |vs| - 1 ==> vs[1..][k] == vs[k + 1];
    }
  }

  lemma {:induction false} EncodesEachEntry(tm: Mapper, es: seq<Entry>)
    ensures var r := EncodeEntries(tm, es);
            && (r.Some? <==> forall k :: 0 <= k < |es| ==> Encode(tm, es[k].val).Some?)
            && (r.Some? ==> forall k :: 0 <= k < |es| ==> Encode(tm, es[k].val) == Some(r.value[k].val))
    decreases es
  {
    if es != [] {
      EncodesEachEntry(tm, es[1..]);
      assert forall k :: 1 <= k < |es| ==> es[k] == es[1..][k - 1];
      assert forall k :: 0 <= k < |es| - 1 ==> es[1..][k] == es[k + 1];
    }
  }

  /**
    The first entry with the number of a tag decodes what the tag holds.  A tag of which no
    entry has the number is refused or left alone, as the mapper was told.
   */
  lemma DecodesTag(tm: Mapper, num: int, item: Value, i: nat)
    requires i <= |tm.classTags| && forall j :: 0 <= j < i ==> tm.classTags[j].tagNumber != num
    ensures i < |tm.classTags| && tm.classTags[i].tagNumber == num ==>
              Decode(tm, Tag(num, item)) == tm.classTags[i].decode(item)
    ensures i == |tm.classTags| ==>
              Decode(tm, Tag(num, item)) == if tm.raiseOnUnknownTag then None else Some(Tag(num, item))
  {
    LookupFirst(tm.classTags, num, i);
  }

  /** Lists and dicts are decoded element by element; tuples and everything else stay. */
  lemma DecodesOther(tm: Mapper, v: Value)
    requires !v.Tag? && !v.BareTag?
    ensures !v.List? && !v.Dict? ==> Decode(tm, v) == Some(v)
    ensures v.List? && v.frozen ==> Decode(tm, v) == Some(v)
    ensures v.List? && !v.frozen ==>
              var r := Decode(tm, v);
              && (r.Some? <==> forall k :: 0 <= k < |v.items| ==> Decode(tm, v.items[k]).Some?)
              && (r.Some? ==> r.value.List? && !r.value.frozen && |r.value.items| == |v.items|)
              && (r.Some? ==> forall k :: 0 <= k < |v.items| ==> Decode(tm, v.items[k]) == Some(r.value.items[k]))
    ensures v.Dict? ==>
              var r := Decode(tm, v);
              && (r.Some? <==> forall k :: 0 <= k < |v.entries| ==> Decode(tm, v.entries[k].val).Some?)
              && (r.Some? ==> r.value.Dict? && |r.value.entries| == |v.entries|)
              && (r.Some? ==> forall k :: 0 <= k < |v.entries| ==> r.value.entries[k].key == v.entries[k].key)
              && (r.Some? ==> forall k :: 0 <= k < |v.entries| ==>
                                Decode(tm, v.entries[k].val) == Some(r.value.entries[k].val))
  {
    if v.List? && !v.frozen {
      DecodesEach(tm, v.items);
    } else if v.Dict? {
      DecodesEachEntry(tm, v.entries);
    }
  }

  lemma {:induction false} DecodesEach(tm: Mapper, vs: seq<Value>)
    ensures var r := DecodeAll(tm, vs);
            && (r.Some? <==> forall k :: 0 <= k < |vs| ==> Decode(tm, vs[k]).Some?)
            && (r.Some? ==> forall k :: 0 <= k < |vs| ==> Decode(tm, vs[k]) == Some(r.value[k]))
    decreases vs
  {
    if vs != [] {
      DecodesEach(tm, vs[1..]);
      assert forall k :: 1 <= k < |vs| ==> vs[k] == vs[1..][k - 1];
      assert forall k :: 0 <= k < |vs| - 1 ==> vs[1..][k] == vs[k + 1];
    }
  }

  lemma {:induction false} DecodesEachEntry(tm: Mapper, es: seq<Entry>)
    ensures var r := DecodeEntries(tm, es);
            && (r.Some? <==> forall k :: 0 <= k < |es| ==> Decode(tm, es[k].val).Some?)
            && (r.Some? ==> forall k :: 0 <= k < |es| ==> Decode(tm, es[k].val) == Some(r.value[k].val))
    decreases es
  {
    if es != [] {
      DecodesEachEntry(tm, es[1..]);
      assert forall k :: 1 <= k < |es| ==> es[k] == es[1..][k - 1];
      assert forall k :: 0 <= k < |es| - 1 ==> es[1..][k] == es[k + 1];
    }
  }

  // ---------- The round trip of a mapper ----------

  /**
    With distinct tag numbers, an object comes back if and only if the class that takes it
    decodes what it encoded.
   */
  lemma OwnEntryRestores(tm: Mapper, v: Value, i: nat)
    requires forall j, k :: 0 <= j < k < |tm.classTags| ==> tm.classTags[j].tagNumber != tm.classTags[k].tagNumber
    requires i < |tm.classTags| && FirstMatch(tm.classTags, v) == Some(tm.classTags[i])
    ensures Restorable(tm, v) <==>
            var ct := tm.classTags[i];
            var e := ct.encode.value(v);
            e.Some? && ct.decode(Norm(e.value)) == Some(v)
  {
    LookupFirst(tm.classTags, tm.classTags[i].tagNumber, i);
  }

  /**
    `TagMapper.dumps` and `TagMapper.loads` over either encoder and either decoder: the
    object comes back, with its registered objects restored, where what the mapper makes of
    it survives with that encoder and that decoder.
   */
  lemma MapperRoundTrip(tm: Mapper, d: Codec, m: C.Mode, v: Value, rest: seq<byte>)
    requires Restorable(tm, v)
    ensures Encode(tm, v).Some?
    ensures var e := Encode(tm, v).value;
            Ready(d, e) && HasItem(e) && Survives(d, CCompleteness.ReadingOf(m), e) ==>
            var r := C.Item(m, Enc(d, e) + rest);
            r.Ok? && r.rest == rest && Decode(tm, r.value) == Some(Settled(tm, v))
    ensures var e := Encode(tm, v).value;
            Ready(d, e) && HasItem(e) && Survives(d, FromPython, e) ==>
            var r := Py.Item(Enc(d, e) + rest);
            r.Got? && r.rest == rest && Decode(tm, r.value) == Some(Settled(tm, v))
  {
    DecodeUndoesEncode(tm, v);
    var e := Encode(tm, v).value;
    if Ready(d, e) && HasItem(e) {
      Interop.DecodedByC(d, m, e, rest);
      Interop.DecodedByPython(d, e, rest);
    }
  }

  // ---------- Embedded CBOR ----------

  const TAG_CBOR: nat := 24

  /** `WrappedCBOR`: decodes with `loads` and never encodes. */
  function WrappedCBOR(loads: seq<byte> -> Option<Value>): ClassTag {
    ClassTag(TAG_CBOR, None, None, (v: Value) => if v.Bytes? then loads(v.data) else None)
  }

  function CLoads(s: seq<byte>): Option<Value> {
    var r := C.Item(C.Buffer, s);
    if r.Ok? then Some(r.value) else None
  }

  function PyLoads(s: seq<byte>): Option<Value> {
    var r := Py.Item(s);
    if r.Got? then Some(r.value) else None
  }

  /** The object as embedded CBOR. */
  function Wrap(d: Codec, v: Value): Value
    requires Ready(d, v)
  {
    Tag(TAG_CBOR, Bytes(Enc(d, v)))
  }

  /** Tag 24 around a byte string. */
  lemma WrappedBytes(d: Codec, v: Value)
    requires Ready(d, v) && |Enc(d, v)| < MAX_LENGTH
    ensures |Enc(d, v)| < 0x8000_0000_0000_0000 && Ready(d, Wrap(d, v))
    ensures Enc(d, Wrap(d, v)) == [0xD8, 0x18] + (EncodedBytes.Start(0x40, |Enc(d, v)|) + Enc(d, v))
  {
    WrapReady(d, v);
    EncodedBytes.EncodesNode(d, Wrap(d, v));
    EncodedBytes.EncodesLeaf(d, Enc(d, v), [0, 0, 0, 0, 0, 0, 0, 0]);
  }

  lemma Unwraps(loads: seq<byte> -> Option<Value>, raise: bool, s: seq<byte>)
    ensures Decode(Mapper([WrappedCBOR(loads)], raise), Tag(TAG_CBOR, Bytes(s))) == loads(s)
  {
    var ct := WrappedCBOR(loads);
    assert Lookup([ct], Some(TAG_CBOR)) == Some(ct);
    assert ct.decode(Bytes(s)) == loads(s);
  }

  lemma WrapReady(d: Codec, v: Value)
    requires Ready(d, v) && |Enc(d, v)| < MAX_LENGTH
    ensures var w := Wrap(d, v); Ready(d, w) && HasItem(w) && Norm(w) == w && forall p :: Survives(d, p, w)
  {
  }

  /** With either decoder, a mapper that knows tag 24 unwraps a wrapped object, once. */
  lemma UnwrapsWrapped(d: Codec, v: Value, raise: bool)
    requires Ready(d, v) && HasItem(v) && |Enc(d, v)| < MAX_LENGTH
    ensures Ready(d, Wrap(d, v))
    ensures Survives(d, FromBuffer, v) ==>
            var r := CLoads(Enc(d, Wrap(d, v)));
            r.Some? && Decode(Mapper([WrappedCBOR(CLoads)], raise), r.value) == Some(Norm(v))
    ensures Survives(d, FromPython, v) ==>
            var r := PyLoads(Enc(d, Wrap(d, v)));
            r.Some? && Decode(Mapper([WrappedCBOR(PyLoads)], raise), r.value) == Some(Norm(v))
  {
    WrapReady(d, v);
    LoadsBack(d, v);
    LoadsBack(d, Wrap(d, v));
    Unwraps(CLoads, raise, Enc(d, v));
    Unwraps(PyLoads, raise, Enc(d, v));
  }

  lemma LoadsBack(d: Codec, v: Value)
    requires Ready(d, v) && HasItem(v)
    ensures Survives(d, FromBuffer, v) ==> CLoads(Enc(d, v)) == Some(Norm(v))
    ensures Survives(d, FromPython, v) ==> PyLoads(Enc(d, v)) == Some(Norm(v))
  {
    assert Enc(d, v) + [] == Enc(d, v);
    Interop.DecodedByC(d, C.Buffer, v, []);
    Interop.DecodedByPython(d, v, []);
  }

  // ---------- The walk that encodes ----------

  method FindClass(cts: seq<ClassTag>, obj: Value) returns (r: Option<ClassTag>)
    ensures r == FirstMatch(cts, obj)
  {
    assert cts[0..] == cts;
    for i := 0 to |cts|
      invariant FirstMatch(cts, obj) == FirstMatch(cts[i..], obj)
    {
      assert cts[i..][1..] == cts[i + 1..];
      if Matches(cts[i], obj) {
        return Some(cts[i]);
      }
    }
    return None;
  }

  /** What has been rewritten so far, and the rest. */
  ghost function After<T>(acc: seq<T>, rest: Option<seq<T>>): Option<seq<T>> {
    if rest.Some? then Some(acc + rest.value) else None
  }

  method EncodeObj(tm: Mapper, obj: Value) returns (r: Option<Value>)
    requires Valid(obj)
    ensures r == Encode(tm, obj)
    decreases obj, 1
  {
    var ct := FindClass(tm.classTags, obj);
    if ct.Some? {
      var e := ct.value.encode.value(obj);
      return if e.Some? then Some(Tag(ct.value.tagNumber, e.value)) else None;
    }
    if obj.List? {
      var out := EncodeList(tm, obj);
      return if out.Some? then Some(List(out.value, false)) else None;
    }
    if obj.Dict? {
      var out := EncodeDict(tm, obj);
      return if out.Some? then Some(Dict(out.value)) else None;
    }
    return Some(obj);  // let the underlying dumps decide
  }

  method EncodeList(tm: Mapper, obj: Value) returns (r: Option<seq<Value>>)
    requires obj.List? && Valid(obj)
    ensures r == EncodeAll(tm, obj.items)
    decreases obj, 0
  {
    var out: seq<Value>, items := [], obj.items;
    assert items[0..] == items;
    AfterNothing(EncodeAll(tm, items));
    for i := 0 to |items|
      invariant EncodeAll(tm, items) == After(out, EncodeAll(tm, items[i..]))
    {
      assert items[i..][1..] == items[i + 1..];
      var x := EncodeObj(tm, items[i]);
      if x.None? {
        return None;
      }
      AfterOne(out, x.value, EncodeAll(tm, items[i + 1..]));
      out := out + [x.value];
    }
    assert out + [] == out;
    return Some(out);
  }

  lemma AfterNothing<T>(r: Option<seq<T>>)
    ensures After([], r) == r
  {
    if r.Some? {
      assert [] + r.value == r.value;
    }
  }

  lemma AfterOne<T>(acc: seq<T>, x: T, r: Option<seq<T>>)
    ensures After(acc, After([x], r)) == After(acc + [x], r)
  {
    if r.Some? {
      assert acc + ([x] + r.value) == acc + [x] + r.value;
    }
  }

  method EncodeDict(tm: Mapper, obj: Value) returns (r: Option<seq<Entry>>)
    requires obj.Dict? && Valid(obj)
    ensures r == EncodeEntries(tm, obj.entries)
    decreases obj, 0
  {
    var out: seq<Entry>, entries := [], obj.entries;
    assert entries[0..] == entries;
    AfterNothing(EncodeEntries(tm, entries));
    for i := 0 to |entries|
      invariant |out| == i && forall j :: 0 <= j < i ==> out[j].key == entries[j].key
      invariant EncodeEntries(tm, entries) == After(out, EncodeEntries(tm, entries[i..]))
    {
      var k, v := entries[i].key, entries[i].val;
      assert entries[i..][0] == entries[i] && entries[i..][1..] == entries[i + 1..];
      assert obj decreases to v;
      var x := EncodeObj(tm, v);
      if x.None? {
        return None;
      }
      NewKey(entries, out, k, x.value);
      AfterOne(out, Entry(k, x.value), EncodeEntries(tm, entries[i + 1..]));
      out := Put(out, k, x.value);
    }
    assert out + [] == out;
    return Some(out);
  }

  /** The next key of a dict is not among those already set. */
  lemma NewKey(es: seq<Entry>, out: seq<Entry>, k: Value, v: Value)
    requires ScalarKeys(es) && DistinctKeys(es) && |out| < |es| && k == es[|out|].key
    requires forall j :: 0 <= j < |out| ==> out[j].key == es[j].key
    ensures ScalarKeys(out) && Put(out, k, v) == out + [Entry(k, v)]
  {
    forall j | 0 <= j < |out| ensures Scalar(out[j].key) && !KeyEq(out[j].key, k) {
      assert out[j].key == es[j].key;
    }
    PutFresh(out, k, v);
  }
}
