/**
  Python objects as the codec sees them, and the Python dict operations that the
  decoders use.

  A text is kept as its UTF-8 bytes and a float as the payload bytes it is written
  with; `Instance` is any object that neither encoder knows how to serialize.
 */
module Values {
  import opened Prelude
  import opened BigEndian
  import Utf8

  datatype Value =
    | Null
    | Bool(b: bool)
    | Int(n: int)
    | Bytes(data: seq<byte>)
    | Text(data: seq<byte>)
    | Float(payload: seq<byte>)
    | List(items: seq<Value>, frozen: bool)  // frozen: a tuple
    | Dict(entries: seq<Entry>)              // in insertion order
    | Tag(num: int, item: Value)
    | BareTag(item: Value)                   // a Tag whose number is None, or no integer anyway
    | Instance(cls: nat, id: nat)

  datatype Entry = Entry(key: Value, val: Value)

  predicate Scalar(v: Value) {
    v.Null? || v.Bool? || v.Int? || v.Bytes? || v.Text? || v.Float?
  }

  // ---------- Key equality ----------

  /** What Python's `==` and `hash` see of a scalar: `1 == True == 1.0`. */
  datatype Key =
    | NoneKey
    | Numeric(x: real)
    | Infinite(negative: bool)
    | NaN
    | TextKey(text: seq<byte>)
    | BytesKey(bytes: seq<byte>)

  /** `x * 2^e` */
  function Scaled(x: real, e: int): real
    decreases if e < 0 then -e else e
  {
    if e == 0 then x else if e > 0 then 2.0 * Scaled(x, e - 1) else Scaled(x, e + 1) / 2.0
  }

  /**
    The number an IEEE 754 payload stands for: `exponents` and `mantissas` count the
    values of the two fields, and `2^-scale` is the smallest positive number.
   */
  function IeeeKey(bits: nat, exponents: nat, mantissas: nat, scale: nat): Key
    requires exponents >= 1 && mantissas >= 1
  {
    var negative := bits / mantissas / exponents % 2 == 1;
    Ieee(negative, bits / mantissas % exponents, bits % mantissas, exponents, mantissas, scale)
  }

  function Ieee(negative: bool, exp: nat, mant: nat, exponents: nat, mantissas: nat, scale: nat): Key {
    if exp == exponents - 1 then
      if mant == 0 then Infinite(negative) else NaN
    else if exp == 0 then SignedKey(negative, Scaled(mant as real, 0 - scale))
    else SignedKey(negative, Scaled((mant + mantissas) as real, exp - 1 - scale))
  }

  function SignedKey(negative: bool, x: real): Key {
    Numeric(if negative then -x else x)
  }

  function FloatKey(payload: seq<byte>): Key {
    if |payload| == 2 then IeeeKey(FromBE(payload), 0x20, 0x400, 24)
    else if |payload| == 4 then IeeeKey(FromBE(payload), 0x100, 0x80_0000, 149)
    else if |payload| == 8 then IeeeKey(FromBE(payload), 0x800, 0x10_0000_0000_0000, 1074)
    else NaN
  }

  function KeyOf(v: Value): Key
    requires Scalar(v)
  {
    match v
    case Null => NoneKey
    case Bool(b) => Numeric(if b then 1.0 else 0.0)
    case Int(n) => Numeric(n as real)
    case Bytes(data) => BytesKey(data)
    case Text(data) => TextKey(data)
    case Float(payload) => FloatKey(payload)
  }

  /** Two decoded NaNs are different objects, hence different keys. */
  predicate KeyEq(a: Value, b: Value)
    requires Scalar(a) && Scalar(b)
  {
    KeyOf(a) == KeyOf(b) && KeyOf(a) != NaN
  }

  predicate ScalarKeys(es: seq<Entry>) {
    forall i :: 0 <= i < |es| ==> Scalar(es[i].key)
  }

  predicate DistinctKeys(es: seq<Entry>)
    requires ScalarKeys(es)
  {
    forall i, j :: 0 <= i < j < |es| ==> !KeyEq(es[i].key, es[j].key)
  }

  // ---------- Dictionaries ----------

  /** The position of the entry with an equal key, or `|es|`. */
  function FindKey(es: seq<Entry>, k: Value): (i: nat)
    requires ScalarKeys(es) && Scalar(k)
    ensures i <= |es|
    ensures i < |es| ==> KeyEq(es[i].key, k)
    ensures forall j :: 0 <= j < i ==> !KeyEq(es[j].key, k)
  {
    if es == [] then 0
    else if KeyEq(es[0].key, k) then 0
    else
      var i := FindKey(es[1..], k);
      assert forall j :: 1 <= j < i + 1 ==> es[j] == es[1..][j - 1];
      i + 1
  }

  /** `ob[k] = v`: the last value wins, under the key that came first. */
  function Put(es: seq<Entry>, k: Value, v: Value): (r: seq<Entry>)
    requires ScalarKeys(es) && Scalar(k)
    ensures ScalarKeys(r)
    ensures |es| <= |r| <= |es| + 1
    ensures |r| == |es| + 1 ==> r == es + [Entry(k, v)]
  {
    var i := FindKey(es, k);
    if i < |es| then es[i := Entry(es[i].key, v)] else es + [Entry(k, v)]
  }

  lemma PutFresh(es: seq<Entry>, k: Value, v: Value)
    requires ScalarKeys(es) && Scalar(k)
    requires forall i :: 0 <= i < |es| ==> !KeyEq(es[i].key, k)
    ensures Put(es, k, v) == es + [Entry(k, v)]
  {
  }

  lemma PutKeepsDistinct(es: seq<Entry>, k: Value, v: Value)
    requires ScalarKeys(es) && Scalar(k) && DistinctKeys(es)
    ensures DistinctKeys(Put(es, k, v))
  {
  }

  /** `PyDict_SetItem` on a dict under construction: an unhashable key spoils it. */
  function SetItem(out: Option<seq<Entry>>, k: Value, v: Value): (r: Option<seq<Entry>>)
    requires out.Some? ==> ScalarKeys(out.value)
    ensures r.Some? ==> ScalarKeys(r.value)
  {
    if out.Some? && Scalar(k) then Some(Put(out.value, k, v)) else None
  }

  /**
    The dict built from alternating keys and values, or None when some key is not
    hashable or its value is missing.
   */
  function Build(kvs: seq<Value>): (r: Option<seq<Entry>>)
    ensures r.Some? ==> ScalarKeys(r.value)
    decreases |kvs|
  {
    if kvs == [] then Some([])
    else if |kvs| == 1 then None
    else SetItem(Build(kvs[..|kvs| - 2]), kvs[|kvs| - 2], kvs[|kvs| - 1])
  }

  lemma {:induction false} BuildSize(kvs: seq<Value>)
    requires Build(kvs).Some?
    ensures 2 * |Build(kvs).value| <= |kvs|
    decreases |kvs|
  {
    if kvs != [] {
      var front := kvs[..|kvs| - 2];
      BuildSize(front);
      assert |Build(kvs).value| <= |Build(front).value| + 1;
    }
  }

  lemma {:induction false} BuildOdd(kvs: seq<Value>, n: nat)
    requires |kvs| == 2 * n + 1
    ensures Build(kvs).None?
  {
    if n > 0 {
      BuildOdd(kvs[..|kvs| - 2], n - 1);
    }
  }

  lemma BuildEven(kvs: seq<Value>)
    requires Build(kvs).Some?
    ensures |kvs| % 2 == 0
  {
    if |kvs| % 2 == 1 {
      BuildOdd(kvs, |kvs| / 2);
    }
  }

  /** No two keys of a dict are equal. */
  lemma {:induction false} BuildDistinct(kvs: seq<Value>)
    requires Build(kvs).Some?
    ensures DistinctKeys(Build(kvs).value)
    decreases |kvs|
  {
    if kvs != [] {
      var n := |kvs| - 2;
      BuildDistinct(kvs[..n]);
      PutKeepsDistinct(Build(kvs[..n]).value, kvs[n], kvs[n + 1]);
    }
  }

  lemma BuildSnoc(kvs: seq<Value>, k: Value, v: Value)
    ensures Build(kvs + [k, v]) == SetItem(Build(kvs), k, v)
  {
    assert (kvs + [k, v])[..|kvs|] == kvs;
  }

  /** Keys and values in alternation. */
  function Flat(es: seq<Entry>): (kvs: seq<Value>)
    ensures |kvs| == 2 * |es|
  {
    if es == [] then [] else [es[0].key, es[0].val] + Flat(es[1..])
  }

  lemma {:induction false} FlatSnoc(es: seq<Entry>, e: Entry)
    ensures Flat(es + [e]) == Flat(es) + [e.key, e.val]
  {
    if es == [] {
      assert es + [e] == [e];
    } else {
      FlatSnoc(es[1..], e);
      assert (es + [e])[1..] == es[1..] + [e];
    }
  }

  lemma {:induction false} FlatInjective(a: seq<Entry>, b: seq<Entry>)
    requires Flat(a) == Flat(b)
    ensures a == b
  {
    if a != [] {
      var l, r := Flat(a), Flat(b);
      assert l[0] == a[0].key && l[1] == a[0].val && l[2..] == Flat(a[1..]);
      assert r[0] == b[0].key && r[1] == b[0].val && r[2..] == Flat(b[1..]);
      FlatInjective(a[1..], b[1..]);
      assert a == [a[0]] + a[1..] && b == [b[0]] + b[1..];
    }
  }

  /** Distinct hashable keys: the dict comes back entry for entry, in order. */
  lemma {:induction false} BuildFlat(es: seq<Entry>)
    requires ScalarKeys(es) && DistinctKeys(es)
    ensures Build(Flat(es)) == Some(es)
  {
    if es != [] {
      var init, e := es[..|es| - 1], es[|es| - 1];
      LastIsNew(es);
      BuildFlat(init);
      BuildMore(init, Flat(init), e);
      FlatLast(es);
    }
  }

  lemma FlatLast(es: seq<Entry>)
    requires es != []
    ensures var init, e := es[..|es| - 1], es[|es| - 1];
            init + [e] == es && Flat(es) == Flat(init) + [e.key, e.val]
  {
    var init, e := es[..|es| - 1], es[|es| - 1];
    FlatSnoc(init, e);
    assert es == init + [e];
  }

  lemma BuildMore(init: seq<Entry>, kvs: seq<Value>, e: Entry)
    requires ScalarKeys(init) && Scalar(e.key)
    requires Build(kvs) == Some(init) && Put(init, e.key, e.val) == init + [e]
    ensures Build(kvs + [e.key, e.val]) == Some(init + [e])
  {
    BuildSnoc(kvs, e.key, e.val);
  }

  lemma LastIsNew(es: seq<Entry>)
    requires es != [] && ScalarKeys(es) && DistinctKeys(es)
    ensures var init, e := es[..|es| - 1], es[|es| - 1];
            ScalarKeys(init) && DistinctKeys(init) && Scalar(e.key) && Put(init, e.key, e.val) == init + [e]
  {
    var init, e := es[..|es| - 1], es[|es| - 1];
    forall i | 0 <= i < |init| ensures !KeyEq(init[i].key, e.key) {
      assert init[i] == es[i];
    }
    PutFresh(init, e.key, e.val);
  }

  /** A dict that keeps as many entries as were read kept each of them. */
  lemma {:induction false} BuildNoCollision(kvs: seq<Value>)
    requires Build(kvs).Some? && 2 * |Build(kvs).value| == |kvs|
    ensures Flat(Build(kvs).value) == kvs
    decreases |kvs|
  {
    if kvs != [] {
      var n := |kvs| - 2;
      var front, e := kvs[..n], Entry(kvs[n], kvs[n + 1]);
      assert kvs == front + [e.key, e.val];
      BuildSnoc(front, e.key, e.val);
      var pre := Build(front).value;
      assert Build(kvs).value == Put(pre, e.key, e.val);
      BuildSize(front);
      BuildNoCollision(front);
      FlatSnoc(pre, e);
    }
  }

  // ---------- Normal form ----------

  /** Decoders return lists where encoders were given tuples. */
  function Norm(v: Value): (r: Value) {
    match v
    case List(items, _) => List(NormAll(items), false)
    case Dict(entries) => Dict(NormEntries(entries))
    case Tag(num, item) => Tag(num, Norm(item))
    case BareTag(item) => BareTag(Norm(item))
    case _ => v
  }

  function NormAll(vs: seq<Value>): (r: seq<Value>)
    ensures |r| == |vs|
  {
    if vs == [] then [] else [Norm(vs[0])] + NormAll(vs[1..])
  }

  function NormEntries(es: seq<Entry>): (r: seq<Entry>)
    ensures |r| == |es|
    ensures forall i :: 0 <= i < |es| ==> r[i] == NormEntry(es[i])
  {
    if es == [] then [] else [NormEntry(es[0])] + NormEntries(es[1..])
  }

  function NormEntry(e: Entry): Entry {
    Entry(Norm(e.key), Norm(e.val))
  }

  lemma NormKey(es: seq<Entry>, i: nat)
    requires ScalarKeys(es) && i < |es|
    ensures Scalar(NormEntries(es)[i].key) && NormEntries(es)[i].key == es[i].key
  {
    assert NormEntries(es)[i] == NormEntry(es[i]);
    assert Scalar(es[i].key);
  }

  /** The dict of the same keys with other values. */
  lemma SameKeysDistinct(es: seq<Entry>, ns: seq<Entry>)
    requires |es| == |ns| && ScalarKeys(es) && ScalarKeys(ns) && DistinctKeys(es)
    requires forall i :: 0 <= i < |es| ==> ns[i].key == es[i].key
    ensures DistinctKeys(ns)
  {
  }

  lemma NormKeys(es: seq<Entry>)
    requires ScalarKeys(es)
    ensures ScalarKeys(NormEntries(es))
    ensures forall i :: 0 <= i < |es| ==> NormEntries(es)[i].key == es[i].key
    ensures DistinctKeys(es) ==> DistinctKeys(NormEntries(es))
  {
    var ns := NormEntries(es);
    forall i | 0 <= i < |es| ensures Scalar(ns[i].key) && ns[i].key == es[i].key {
      NormKey(es, i);
    }
    if DistinctKeys(es) {
      SameKeysDistinct(es, ns);
    }
  }

  // ---------- Size ----------

  /** The number of objects in a decoded value. */
  function Nodes(v: Value): (n: nat)
    ensures n >= 1
  {
    match v
    case List(items, _) => 1 + NodesAll(items)
    case Dict(entries) => 1 + NodesEntries(entries)
    case Tag(_, item) => 1 + Nodes(item)
    case BareTag(item) => 1 + Nodes(item)
    case _ => 1
  }

  function NodesAll(vs: seq<Value>): nat {
    if vs == [] then 0 else Nodes(vs[0]) + NodesAll(vs[1..])
  }

  function NodesEntries(es: seq<Entry>): nat {
    if es == [] then 0 else NodesEntry(es[0]) + NodesEntries(es[1..])
  }

  function NodesEntry(e: Entry): nat {
    Nodes(e.key) + Nodes(e.val)
  }

  // ---------- Objects an encoder can be given ----------

  const MAX_LENGTH: nat := 0x8000_0000_0000_0000  // Py_ssize_t
  const MAX_COUNT: nat := 0x1_0000_0000           // unsigned int

  /**
    What CPython guarantees of an object (valid text, 64-bit floats, distinct dict
    keys, lengths that fit a `Py_ssize_t`), with scalar dict keys.
   */
  predicate Valid(v: Value) {
    match v
    case Int(n) => |MinBE(if n < 0 then -1 - n else n)| < MAX_LENGTH
    case Bytes(data) => |data| < MAX_LENGTH
    case Text(data) => |data| < MAX_LENGTH && Utf8.Valid(data)
    case Float(payload) => |payload| == 8
    case List(items, _) => |items| < MAX_LENGTH && forall i :: 0 <= i < |items| ==> Valid(items[i])
    case Dict(entries) =>
      && |entries| < MAX_LENGTH
      && ScalarKeys(entries) && DistinctKeys(entries)
      && forall i :: 0 <= i < |entries| ==> Valid(entries[i].key) && Valid(entries[i].val)
    case Tag(_, item) => Valid(item)
    case BareTag(item) => Valid(item)
    case _ => true
  }
}
