/**
  Decoding tags in place: the walk of `TagMapper.decode` over lists and dicts that it
  updates while it goes, proved to end in the state of the rewrite on values.
 */
module TagMapperHeap {
  import opened Prelude
  import opened Values
  import opened TM = TagMapper

  class ListObj {
    var items: seq<Ref>

    constructor (items: seq<Ref>)
      ensures this.items == items
    {
      this.items := items;
    }
  }

  class DictObj {
    var slots: seq<Slot>

    constructor (slots: seq<Slot>)
      ensures this.slots == slots
    {
      this.slots := slots;
    }
  }

  datatype Slot = Slot(key: Value, ref: Ref)

  /** An object as its container refers to it. */
  datatype Ref = Atom(v: Value) | InList(l: ListObj) | InDict(d: DictObj) | InTag(num: Option<int>, content: Ref)

  /** A heap structure spelled out: which containers it is made of, and what is in them. */
  datatype Tree =
    | TAtom(v: Value)
    | TList(l: ListObj, kids: seq<Tree>)
    | TDict(d: DictObj, keys: seq<Value>, kids: seq<Tree>)
    | TTag(num: Option<int>, content: Tree)

  function RefOf(t: Tree): Ref {
    match t
    case TAtom(v) => Atom(v)
    case TList(l, _) => InList(l)
    case TDict(d, _, _) => InDict(d)
    case TTag(num, content) => InTag(num, RefOf(content))
  }

  ghost function Objs(t: Tree): set<object> {
    match t
    case TAtom(_) => {}
    case TList(l, kids) => {l} + ObjsAll(kids)
    case TDict(d, _, kids) => {d} + ObjsAll(kids)
    case TTag(_, content) => Objs(content)
  }

  ghost function ObjsAll(ts: seq<Tree>): set<object> {
    if ts == [] then {} else Objs(ts[0]) + ObjsAll(ts[1..])
  }

  /** The containers that are not inside a tag. */
  ghost function Reach(t: Tree): (r: set<object>)
    ensures r <= Objs(t)
  {
    match t
    case TAtom(_) => {}
    case TList(l, kids) => {l} + ReachAll(kids)
    case TDict(d, _, kids) => {d} + ReachAll(kids)
    case TTag(_, _) => {}
  }

  ghost function ReachAll(ts: seq<Tree>): (r: set<object>)
    ensures r <= ObjsAll(ts)
  {
    if ts == [] then {} else Reach(ts[0]) + ReachAll(ts[1..])
  }

  lemma {:induction false} KidObjs(ts: seq<Tree>, i: nat)
    requires i < |ts|
    ensures Objs(ts[i]) <= ObjsAll(ts) && Reach(ts[i]) <= ReachAll(ts)
  {
    if i > 0 {
      KidObjs(ts[1..], i - 1);
    }
  }

  lemma {:induction false} ObjsAllSmaller(ts: seq<Tree>, us: seq<Tree>)
    requires |ts| == |us| && forall i :: 0 <= i < |ts| ==> Objs(us[i]) <= Objs(ts[i])
    ensures ObjsAll(us) <= ObjsAll(ts)
  {
    if ts != [] {
      ObjsAllSmaller(ts[1..], us[1..]);
    }
  }

  /** A structure consists of objects that exist. */
  lemma {:induction false} Exists(t: Tree)
    ensures forall o :: o in Objs(t) ==> allocated(o)
  {
    match t
    case TList(_, kids) => ExistAll(kids);
    case TDict(_, _, kids) => ExistAll(kids);
    case TTag(_, content) => Exists(content);
    case _ =>
  }

  lemma {:induction false} ExistAll(ts: seq<Tree>)
    ensures forall o :: o in ObjsAll(ts) ==> allocated(o)
  {
    if ts != [] {
      Exists(ts[0]);
      ExistAll(ts[1..]);
    }
  }

  /** The heap is as the tree says. */
  ghost predicate Holds(t: Tree)
    reads Objs(t)
    decreases t, 0
  {
    match t
    case TAtom(_) => true
    case TList(l, kids) => l.items == Refs(kids) && HoldsAll(kids)
    case TDict(d, keys, kids) => |keys| == |kids| && d.slots == Slots(keys, kids) && HoldsAll(kids)
    case TTag(_, content) => Holds(content)
  }

  ghost predicate HoldsAll(ts: seq<Tree>)
    reads ObjsAll(ts)
    decreases ts, 1
  {
    forall i | 0 <= i < |ts| :: KidObjs(ts, i); Holds(ts[i])
  }

  lemma KidHolds(ts: seq<Tree>, i: nat)
    requires HoldsAll(ts) && i < |ts|
    ensures Holds(ts[i])
  {
  }

  function Refs(ts: seq<Tree>): (r: seq<Ref>)
  {
    seq(|ts|, i requires 0 <= i < |ts| => RefOf(ts[i]))
  }

  function Slots(keys: seq<Value>, ts: seq<Tree>): (r: seq<Slot>)
    requires |keys| == |ts|
  {
    seq(|ts|, i requires 0 <= i < |ts| => Slot(keys[i], RefOf(ts[i])))
  }

  /** No container is reachable in two ways, except inside the contents of one tag. */
  ghost predicate Unshared(t: Tree) {
    match t
    case TList(l, kids) => l !in ObjsAll(kids) && Apart(kids) && forall i :: 0 <= i < |kids| ==> Unshared(kids[i])
    case TDict(d, _, kids) => d !in ObjsAll(kids) && Apart(kids) && forall i :: 0 <= i < |kids| ==> Unshared(kids[i])
    case _ => true
  }

  ghost predicate Apart(ts: seq<Tree>) {
    forall i, j :: 0 <= i < j < |ts| ==> Objs(ts[i]) !! Objs(ts[j])
  }

  /** Atoms outside tags are objects that the walk does not look into. */
  predicate Plain(t: Tree) {
    match t
    case TAtom(v) => !v.Dict? && !v.Tag? && !v.BareTag? && !(v.List? && !v.frozen)
    case TList(_, kids) => forall i :: 0 <= i < |kids| ==> Plain(kids[i])
    case TDict(_, _, kids) => forall i :: 0 <= i < |kids| ==> Plain(kids[i])
    case TTag(_, _) => true
  }

  /** The object as a value. */
  function ValueOf(t: Tree): Value {
    match t
    case TAtom(v) => v
    case TList(_, kids) => List(ValuesOf(kids), false)
    case TDict(_, keys, kids) => Dict(Zip(keys, ValuesOf(kids)))
    case TTag(num, content) => TM.TagOf(num, ValueOf(content))
  }

  function ValuesOf(ts: seq<Tree>): (vs: seq<Value>)
    ensures |vs| == |ts|
    ensures forall i :: 0 <= i < |ts| ==> vs[i] == ValueOf(ts[i])
  {
    if ts == [] then [] else [ValueOf(ts[0])] + ValuesOf(ts[1..])
  }

  function Zip(keys: seq<Value>, vs: seq<Value>): (es: seq<Entry>)
    ensures |es| == if |keys| <= |vs| then |keys| else |vs|
    ensures forall i :: 0 <= i < |es| ==> es[i] == Entry(keys[i], vs[i])
  {
    if keys == [] || vs == [] then [] else [Entry(keys[0], vs[0])] + Zip(keys[1..], vs[1..])
  }

  /** Containers outside tags are the same objects, of the same length and with the same keys. */
  predicate Kept(t: Tree, u: Tree) {
    match t
    case TAtom(_) => u == t
    case TList(l, kids) =>
      u.TList? && u.l == l && |u.kids| == |kids| && forall i :: 0 <= i < |kids| ==> Kept(kids[i], u.kids[i])
    case TDict(d, keys, kids) =>
      u.TDict? && u.d == d && u.keys == keys && |u.kids| == |kids|
      && forall i :: 0 <= i < |kids| ==> Kept(kids[i], u.kids[i])
    case TTag(_, _) => u == t || u.TAtom?
  }

  // ---------- The rewrite on values, element by element ----------

  lemma {:induction false} DecodesAll(tm: Mapper, vs: seq<Value>, ws: seq<Value>)
    requires |vs| == |ws| && forall i :: 0 <= i < |vs| ==> TM.Decode(tm, vs[i]) == Some(ws[i])
    ensures DecodeAll(tm, vs) == Some(ws)
  {
    if vs != [] {
      DecodesAll(tm, vs[1..], ws[1..]);
      assert ws == [ws[0]] + ws[1..];
    }
  }

  lemma {:induction false} RaisesInAll(tm: Mapper, vs: seq<Value>, i: nat)
    requires i < |vs| && TM.Decode(tm, vs[i]).None?
    ensures DecodeAll(tm, vs).None?
  {
    if i > 0 {
      RaisesInAll(tm, vs[1..], i - 1);
    }
  }

  lemma {:induction false} DecodesEntries(tm: Mapper, keys: seq<Value>, vs: seq<Value>, ws: seq<Value>)
    requires |keys| == |vs| == |ws| && forall i :: 0 <= i < |vs| ==> TM.Decode(tm, vs[i]) == Some(ws[i])
    ensures DecodeEntries(tm, Zip(keys, vs)) == Some(Zip(keys, ws))
  {
    if vs != [] {
      DecodesEntries(tm, keys[1..], vs[1..], ws[1..]);
      assert Zip(keys, vs)[1..] == Zip(keys[1..], vs[1..]);
    }
  }

  lemma {:induction false} RaisesInEntries(tm: Mapper, es: seq<Entry>, i: nat)
    requires i < |es| && TM.Decode(tm, es[i].val).None?
    ensures DecodeEntries(tm, es).None?
  {
    if i > 0 {
      RaisesInEntries(tm, es[1..], i - 1);
    }
  }

  // ---------- The walk ----------

  /** The object that a decode function is given, as a value. */
  method Snapshot(r: Ref, ghost t: Tree) returns (v: Value)
    requires RefOf(t) == r && Holds(t)
    ensures v == ValueOf(t)
    decreases t, 1
  {
    match r
    case Atom(x) => v := x;
    case InTag(num, content) =>
      var x := Snapshot(content, t.content);
      v := TM.TagOf(num, x);
    case InList(l) => v := SnapshotList(l, t);
    case InDict(d) => v := SnapshotDict(d, t);
  }

  method SnapshotList(l: ListObj, ghost t: Tree) returns (v: Value)
    requires t.TList? && t.l == l && Holds(t)
    ensures v == ValueOf(t)
    decreases t, 0
  {
    ExistAll(t.kids);
    var vs: seq<Value> := [];
    for i := 0 to |l.items|
      invariant |vs| == i && forall j :: 0 <= j < i ==> vs[j] == ValueOf(t.kids[j])
    {
      KidHolds(t.kids, i);
      var x := Snapshot(l.items[i], t.kids[i]);
      vs := vs + [x];
    }
    assert vs == ValuesOf(t.kids);
    v := List(vs, false);
  }

  method SnapshotDict(d: DictObj, ghost t: Tree) returns (v: Value)
    requires t.TDict? && t.d == d && Holds(t)
    ensures v == ValueOf(t)
    decreases t, 0
  {
    ExistAll(t.kids);
    var es: seq<Entry> := [];
    for i := 0 to |d.slots|
      invariant |es| == i && forall j :: 0 <= j < i ==> es[j] == Entry(t.keys[j], ValueOf(t.kids[j]))
    {
      KidHolds(t.kids, i);
      var x := Snapshot(d.slots[i].ref, t.kids[i]);
      es := es + [Entry(d.slots[i].key, x)];
    }
    assert es == Zip(t.keys, ValuesOf(t.kids));
    v := Dict(es);
  }

  method FindTag(cts: seq<ClassTag>, num: Option<int>) returns (r: Option<ClassTag>)
    ensures r == Lookup(cts, num)
  {
    assert cts[0..] == cts;
    for i := 0 to |cts|
      invariant Lookup(cts, num) == Lookup(cts[i..], num)
    {
      assert cts[i..][1..] == cts[i + 1..];
      if Some(cts[i].tagNumber) == num {
        return Some(cts[i]);
      }
    }
    return None;
  }

  method DecodeTagged(tm: Mapper, r: Ref, ghost t: Tree) returns (out: Option<Ref>, ghost u: Tree)
    requires t.TTag? && RefOf(t) == r && Holds(t)
    ensures Decoded(tm, t, out, u)
  {
    u := t;
    Exists(t.content);
    assert TM.Decode(tm, ValueOf(t)) == TM.DecodeTag(tm, t.num, ValueOf(t.content));
    var ct := FindTag(tm.classTags, r.num);
    if ct.Some? {
      var content := Snapshot(r.content, t.content);
      var v := ct.value.decode(content);
      if v.None? {
        return None, u;
      }
      u := TAtom(v.value);
      return Some(Atom(v.value)), u;
    }
    if tm.raiseOnUnknownTag {
      return None, u;  // UnknownTagException
    }
    return Some(r), u;
  }

  /** The outcome of decoding `t` in place, with `u` as the new state. */
  ghost predicate Decoded(tm: Mapper, t: Tree, out: Option<Ref>, u: Tree)
    reads Objs(u)
  {
    && (out.Some? <==> TM.Decode(tm, ValueOf(t)).Some?)
    && (out.Some? ==>
        && RefOf(u) == out.value && Holds(u) && Kept(t, u) && Objs(u) <= Objs(t)
        && TM.Decode(tm, ValueOf(t)) == Some(ValueOf(u)))
  }

  /**
    `TagMapper.decode`.  Only containers outside tags change; where it does not raise, the
    state it ends in is that of the rewrite on values, in the containers that were there.
   */
  method Decode(tm: Mapper, r: Ref, ghost t: Tree) returns (out: Option<Ref>, ghost u: Tree)
    requires RefOf(t) == r && Holds(t) && Unshared(t) && Plain(t)
    modifies Reach(t)
    ensures Decoded(tm, t, out, u)
    decreases t, 1
  {
    match r
    case Atom(_) => out, u := Some(r), t;
    case InTag(_, _) => out, u := DecodeTagged(tm, r, t);
    case InList(l) => out, u := DecodeList(tm, l, t);
    case InDict(d) => out, u := DecodeDict(tm, d, t);
  }

  /** What is known of the elements while the walk goes over them. */
  ghost predicate Intact(kids: seq<Tree>, us: seq<Tree>)
    reads ObjsAll(us)
  {
    && |us| == |kids| && HoldsAll(us)
    && forall j :: 0 <= j < |kids| ==> Objs(us[j]) <= Objs(kids[j])
  }

  ghost predicate Done(tm: Mapper, kids: seq<Tree>, us: seq<Tree>, i: nat)
    requires i <= |kids| == |us|
  {
    && (forall j :: 0 <= j < i ==> Kept(kids[j], us[j]))
    && (forall j :: 0 <= j < i ==> TM.Decode(tm, ValueOf(kids[j])) == Some(ValueOf(us[j])))
    && us[i..] == kids[i..]
  }

  lemma DoneMore(tm: Mapper, kids: seq<Tree>, us: seq<Tree>, vs: seq<Tree>, i: nat)
    requires i < |kids| == |us| == |vs| && Done(tm, kids, us, i) && vs == us[i := vs[i]]
    requires Kept(kids[i], vs[i]) && TM.Decode(tm, ValueOf(kids[i])) == Some(ValueOf(vs[i]))
    ensures Done(tm, kids, vs, i + 1)
  {
    assert vs[i + 1..] == us[i..][1..] && kids[i..][1..] == kids[i + 1..];
  }

  lemma DoneNext(tm: Mapper, kids: seq<Tree>, us: seq<Tree>, i: nat)
    requires i < |kids| == |us| && Done(tm, kids, us, i)
    ensures us[i] == kids[i]
  {
    assert us[i] == us[i..][0] && kids[i] == kids[i..][0];
  }

  lemma RefsUpdate(us: seq<Tree>, vs: seq<Tree>, i: nat)
    requires i < |us| == |vs| && vs == us[i := vs[i]]
    ensures Refs(vs) == Refs(us)[i := RefOf(vs[i])]
  {
  }

  lemma SlotsUpdate(keys: seq<Value>, us: seq<Tree>, vs: seq<Tree>, i: nat)
    requires i < |us| == |vs| == |keys| && vs == us[i := vs[i]]
    ensures Slots(keys, vs) == Slots(keys, us)[i := Slot(keys[i], RefOf(vs[i]))]
  {
  }

  lemma ListDone(tm: Mapper, l: ListObj, kids: seq<Tree>, us: seq<Tree>)
    requires |kids| == |us| && Done(tm, kids, us, |kids|)
    requires l.items == Refs(us) && Intact(kids, us)
    ensures Decoded(tm, TList(l, kids), Some(InList(l)), TList(l, us))
  {
    DecodesAll(tm, ValuesOf(kids), ValuesOf(us));
    ObjsAllSmaller(kids, us);
  }

  lemma DictDone(tm: Mapper, d: DictObj, keys: seq<Value>, kids: seq<Tree>, us: seq<Tree>)
    requires |keys| == |kids| == |us| && Done(tm, kids, us, |kids|)
    requires d.slots == Slots(keys, us) && Intact(kids, us)
    ensures Decoded(tm, TDict(d, keys, kids), Some(InDict(d)), TDict(d, keys, us))
  {
    DecodesEntries(tm, keys, ValuesOf(kids), ValuesOf(us));
    ObjsAllSmaller(kids, us);
  }

  /** One element of a list or dict. */
  method DecodeSlot(tm: Mapper, r: Ref, ghost kids: seq<Tree>, ghost us: seq<Tree>, ghost i: nat)
      returns (out: Option<Ref>, ghost vs: seq<Tree>)
    requires i < |kids| == |us| && us[i] == kids[i] && RefOf(kids[i]) == r
    requires Apart(kids) && Unshared(kids[i]) && Plain(kids[i])
    requires Intact(kids, us)
    modifies Reach(kids[i])
    ensures out.Some? <==> TM.Decode(tm, ValueOf(kids[i])).Some?
    ensures out.Some? ==>
            && |vs| == |us| && vs == us[i := vs[i]] && RefOf(vs[i]) == out.value
            && Intact(kids, vs) && Kept(kids[i], vs[i])
            && TM.Decode(tm, ValueOf(kids[i])) == Some(ValueOf(vs[i]))
    decreases kids[i], 2
  {
    KidHolds(us, i);
    forall j | 0 <= j < |us| && j != i
      ensures Holds(us[j]) && Objs(us[j]) !! Reach(kids[i]) && forall o :: o in Objs(us[j]) ==> allocated(o)
    {
      KidHolds(us, j);
      Exists(us[j]);
    }
    ghost var k;
    out, k := Decode(tm, r, kids[i]);
    vs := us[i := k];
  }

  method DecodeList(tm: Mapper, l: ListObj, ghost t: Tree) returns (out: Option<Ref>, ghost u: Tree)
    requires t.TList? && t.l == l && Holds(t) && Unshared(t) && Plain(t)
    modifies Reach(t)
    ensures Decoded(tm, t, out, u)
    decreases t, 0
  {
    ghost var kids, us := t.kids, t.kids;
    u := t;
    for i := 0 to |l.items|
      invariant |l.items| == |kids| && Intact(kids, us) && Done(tm, kids, us, i)
      invariant l.items == Refs(us)
    {
      KidObjs(kids, i);
      DoneNext(tm, kids, us, i);
      var x;
      ghost var vs;
      x, vs := DecodeSlot(tm, l.items[i], kids, us, i);
      if x.None? {
        RaisesInAll(tm, ValuesOf(kids), i);
        return None, u;
      }
      DoneMore(tm, kids, us, vs, i);
      RefsUpdate(us, vs, i);
      ObjsAllSmaller(kids, vs);
      l.items := l.items[i := x.value];
      us := vs;
    }
    u := TList(l, us);
    ListDone(tm, l, kids, us);
    return Some(InList(l)), u;
  }

  method DecodeDict(tm: Mapper, d: DictObj, ghost t: Tree) returns (out: Option<Ref>, ghost u: Tree)
    requires t.TDict? && t.d == d && Holds(t) && Unshared(t) && Plain(t)
    modifies Reach(t)
    ensures Decoded(tm, t, out, u)
    decreases t, 0
  {
    ghost var keys, kids, us := t.keys, t.kids, t.kids;
    u := t;
    for i := 0 to |d.slots|
      invariant |d.slots| == |keys| == |kids| && Intact(kids, us) && Done(tm, kids, us, i)
      invariant d.slots == Slots(keys, us)
    {
      KidObjs(kids, i);
      DoneNext(tm, kids, us, i);
      var k := d.slots[i].key;
      var x;
      ghost var vs;
      x, vs := DecodeSlot(tm, d.slots[i].ref, kids, us, i);
      if x.None? {
        RaisesInEntries(tm, Zip(keys, ValuesOf(kids)), i);
        return None, u;
      }
      DoneMore(tm, kids, us, vs, i);
      SlotsUpdate(keys, us, vs, i);
      ObjsAllSmaller(kids, vs);
      d.slots := d.slots[i := Slot(k, x.value)];
      us := vs;
    }
    u := TDict(d, keys, us);
    DictDone(tm, d, keys, kids, us);
    return Some(InDict(d)), u;
  }

  /** For instance: a list of a tag and of a dict that holds another one; both are replaced where they are. */
  method DecodeNested(tm: Mapper, num: int, a: Value, k: Value, b: Value)
    returns (l: ListObj, d: DictObj, out: Option<Ref>)
    requires tm.classTags != [] && tm.classTags[0].tagNumber == num
    requires tm.classTags[0].decode(a).Some? && !tm.classTags[0].decode(a).value.Tag?
    requires tm.classTags[0].decode(b).Some? && !tm.classTags[0].decode(b).value.Tag?
    ensures fresh(l) && fresh(d) && out == Some(InList(l))
    ensures l.items == [Atom(tm.classTags[0].decode(a).value), InDict(d)]
    ensures d.slots == [Slot(k, Atom(tm.classTags[0].decode(b).value))]
  {
    ghost var outer;
    l, d, outer := MakeNested(num, a, k, b);
    ghost var s, t := outer.kids[0], outer.kids[1].kids[0];
    TagDecodes(tm, num, a);
    TagDecodes(tm, num, b);
    NestedDecodes(tm, l, d, s, k, t);
    ghost var u;
    out, u := Decode(tm, InList(l), outer);
    NestedResult(tm, l, d, s, k, t, out, u);
  }

  method MakeNested(num: int, a: Value, k: Value, b: Value) returns (l: ListObj, d: DictObj, ghost outer: Tree)
    ensures fresh(l) && fresh(d) && outer == TList(l, [TTag(Some(num), TAtom(a)), TDict(d, [k], [TTag(Some(num), TAtom(b))])])
    ensures Reach(outer) == {l as object, d as object} && Holds(outer) && Unshared(outer) && Plain(outer)
  {
    d := new DictObj([Slot(k, InTag(Some(num), Atom(b)))]);
    l := new ListObj([InTag(Some(num), Atom(a)), InDict(d)]);
    ghost var s, t := TTag(Some(num), TAtom(a)), TTag(Some(num), TAtom(b));
    ghost var inner := TDict(d, [k], [t]);
    outer := TList(l, [s, inner]);
    NestedTree(l, d, s, k, t);
    RefsNested(num, a, d, [k], [t]);
    RefsNested(num, b, d, [k], [t]);
    SlotsOne(k, t);
    RefsTwo(s, inner);
    HoldsOne(t);
    HoldsTwo(s, inner);
  }

  /** What is in the containers after the walk. */
  lemma NestedResult(tm: Mapper, l: ListObj, d: DictObj, s: Tree, k: Value, t: Tree, out: Option<Ref>, u: Tree)
    requires s.TTag? && t.TTag? && Decoded(tm, TList(l, [s, TDict(d, [k], [t])]), out, u) && out.Some?
    requires TM.Decode(tm, ValueOf(s)).Some? && !TM.Decode(tm, ValueOf(s)).value.Tag? && s.num.Some?
    requires TM.Decode(tm, ValueOf(t)).Some? && !TM.Decode(tm, ValueOf(t)).value.Tag? && t.num.Some?
    requires var r := TM.Decode(tm, ValueOf(TList(l, [s, TDict(d, [k], [t])])));
             && r.Some? && r.value.List? && |r.value.items| == 2
             && TM.Decode(tm, ValueOf(s)) == Some(r.value.items[0])
             && r.value.items[1] == Dict([Entry(k, TM.Decode(tm, ValueOf(t)).value)])
    ensures out == Some(InList(l))
    ensures l.items == [Atom(TM.Decode(tm, ValueOf(s)).value), InDict(d)]
    ensures d.slots == [Slot(k, Atom(TM.Decode(tm, ValueOf(t)).value))]
  {
    NestedKept(l, d, s, k, t, u);
    var x, y := u.kids[0], u.kids[1].kids[0];
    var w := TDict(d, [k], [y]);
    assert u == TList(l, [x, w]);
    NestedValue(l, d, x, k, y);
    AtomLeft(s, x);
    AtomLeft(t, y);
    RefsTwo(x, w);
    SlotsOne(k, y);
    KidHolds([x, w], 1);
    assert [x, w][1] == w;
  }

  lemma NestedKept(l: ListObj, d: DictObj, s: Tree, k: Value, t: Tree, u: Tree)
    requires Kept(TList(l, [s, TDict(d, [k], [t])]), u)
    ensures u.TList? && |u.kids| == 2 && u.kids[1].TDict? && |u.kids[1].kids| == 1
    ensures Kept(s, u.kids[0]) && Kept(t, u.kids[1].kids[0])
    ensures u == TList(l, [u.kids[0], TDict(d, [k], [u.kids[1].kids[0]])])
  {
    var inner := TDict(d, [k], [t]);
    assert [s, inner][0] == s && [s, inner][1] == inner && [t][0] == t;
    var w := u.kids[1];
    assert Kept(inner, w);
    assert w.kids == [w.kids[0]] && w == TDict(d, [k], w.kids);
    assert u.kids == [u.kids[0], w];
  }

  lemma NestedValue(l: ListObj, d: DictObj, x: Tree, k: Value, y: Tree)
    ensures ValueOf(TList(l, [x, TDict(d, [k], [y])])) == List([ValueOf(x), Dict([Entry(k, ValueOf(y))])], false)
  {
    var w := TDict(d, [k], [y]);
    assert ValuesOf([y]) == [ValueOf(y)] && ValuesOf([x, w]) == [ValueOf(x), ValueOf(w)];
    assert Zip([k], [ValueOf(y)]) == [Entry(k, ValueOf(y))];
  }

  /** A tag that was replaced by something that is no tag has become an atom. */
  lemma AtomLeft(t: Tree, u: Tree)
    requires t.TTag? && t.num.Some? && Kept(t, u) && !ValueOf(u).Tag?
    ensures u == TAtom(ValueOf(u))
  {
  }

  lemma RefsNested(num: int, v: Value, d: DictObj, keys: seq<Value>, kids: seq<Tree>)
    ensures RefOf(TTag(Some(num), TAtom(v))) == InTag(Some(num), Atom(v)) && RefOf(TDict(d, keys, kids)) == InDict(d)
  {
    assert RefOf(TAtom(v)) == Atom(v);
  }

  lemma SlotsOne(k: Value, t: Tree)
    ensures Slots([k], [t]) == [Slot(k, RefOf(t))]
  {
  }

  lemma RefsTwo(s: Tree, t: Tree)
    ensures Refs([s, t]) == [RefOf(s), RefOf(t)]
  {
  }

  lemma TagDecodes(tm: Mapper, num: int, v: Value)
    requires tm.classTags != [] && tm.classTags[0].tagNumber == num
    ensures TM.Decode(tm, Tag(num, v)) == tm.classTags[0].decode(v)
  {
    TM.DecodesTag(tm, num, v, 0);
  }

  lemma NestedTree(l: ListObj, d: DictObj, s: Tree, k: Value, t: Tree)
    requires s.TTag? && s.content.TAtom? && t.TTag? && t.content.TAtom?
    ensures var inner := TDict(d, [k], [t]);
            var outer := TList(l, [s, inner]);
            && Objs(inner) == {d as object} && Objs(outer) == {l as object, d as object} && Reach(outer) == {l as object, d as object}
            && Unshared(outer) && Plain(outer)
  {
    var inner := TDict(d, [k], [t]);
    ObjsOne(t);
    ObjsOne(inner);
    ObjsTwo(s, inner);
    assert Objs(s) == {} && Objs(t) == {} && Reach(s) == {} && Reach(t) == {};
  }

  lemma ObjsOne(t: Tree)
    ensures ObjsAll([t]) == Objs(t) && ReachAll([t]) == Reach(t)
  {
    assert [t][1..] == [];
  }

  lemma ObjsTwo(s: Tree, t: Tree)
    ensures ObjsAll([s, t]) == Objs(s) + Objs(t) && ReachAll([s, t]) == Reach(s) + Reach(t)
  {
    assert [s, t][1..] == [t];
    ObjsOne(t);
  }

  lemma HoldsOne(t: Tree)
    requires Holds(t)
    ensures HoldsAll([t])
  {
  }

  lemma HoldsTwo(s: Tree, t: Tree)
    requires Holds(s) && Holds(t)
    ensures HoldsAll([s, t])
  {
  }

  lemma NestedDecodes(tm: Mapper, l: ListObj, d: DictObj, s: Tree, k: Value, t: Tree)
    requires s.TTag? && s.content.TAtom? && t.TTag? && t.content.TAtom?
    requires TM.Decode(tm, ValueOf(s)).Some? && TM.Decode(tm, ValueOf(t)).Some?
    ensures var r := TM.Decode(tm, ValueOf(TList(l, [s, TDict(d, [k], [t])])));
            && r.Some? && r.value.List? && |r.value.items| == 2
            && TM.Decode(tm, ValueOf(s)) == Some(r.value.items[0])
            && r.value.items[1] == Dict([Entry(k, TM.Decode(tm, ValueOf(t)).value)])
  {
    var inner := TDict(d, [k], [t]);
    var x, y := TM.Decode(tm, ValueOf(s)).value, TM.Decode(tm, ValueOf(t)).value;
    DecodesEntries(tm, [k], [ValueOf(t)], [y]);
    assert ValuesOf([t]) == [ValueOf(t)] && ValuesOf([s, inner]) == [ValueOf(s), ValueOf(inner)];
    assert Zip([k], [y]) == [Entry(k, y)];
    DecodesAll(tm, [ValueOf(s), ValueOf(inner)], [x, Dict([Entry(k, y)])]);
  }
}
