/**
  What the two encoders write, as bytes and as data items.  `Codec.C` is
  `c/cbormodule.c`, `Codec.Python` is `cbor/cbor.py`.
 */
module Encoding {
  import opened Prelude
  import opened BigEndian
  import opened Values
  import opened Wire
  import opened Sorting

  // ---------- Integers ----------

  const INT64_LIMIT: nat := 0x8000_0000_0000_0000
  const C_BIGNUM_BYTES: nat := 23

  /** Non-negative integers below this get a head of their own. */
  function UintLimit(d: Codec): nat {
    if d.C? then INT64_LIMIT else HEAD_LIMIT
  }

  /** The payload of a bignum; the C loop stops after 23 bytes. */
  function BigBytes(d: Codec, n: nat): (s: seq<byte>) {
    if d.C? then LowBytes(n, C_BIGNUM_BYTES) else MinBE(n)
  }

  function BignumOut(d: Codec, num: byte, n: nat): seq<byte>
    requires num < 24 && |BigBytes(d, n)| < MAX_LENGTH
  {
    [TypeOr(TAG, num)] + Head(BYTES, |BigBytes(d, n)|) + BigBytes(d, n)
  }

  predicate SizedInt(n: int) {
    |MinBE(if n < 0 then -1 - n else n)| < MAX_LENGTH
  }

  lemma BigBytesSize(d: Codec, n: nat)
    requires |MinBE(n)| < MAX_LENGTH
    ensures |BigBytes(d, n)| < MAX_LENGTH
  {
  }

  function IntOut(d: Codec, n: int): (s: seq<byte>)
    requires SizedInt(n)
  {
    if n >= 0 then
      if n < UintLimit(d) then Head(UINT, n)
      else BigBytesSize(d, n); BignumOut(d, TAG_BIGNUM, n)
    else
      var m: nat := -1 - n;
      if m < INT64_LIMIT then Head(NEGINT, m)
      else BigBytesSize(d, m); BignumOut(d, TAG_NEGBIGNUM, m)
  }

  // ---------- Values ----------

  function TagLimit(d: Codec): nat {
    if d.C? then INT64_LIMIT else HEAD_LIMIT
  }

  /**
    The encoder knows every object inside `v`, and every tag number fits its head.  For a tag
    whose number is None the C encoder writes nothing, not even its content, and succeeds.
   */
  predicate Encodable(d: Codec, v: Value) {
    match v
    case List(items, _) => forall i :: 0 <= i < |items| ==> Encodable(d, items[i])
    case Dict(entries) =>
      forall i :: 0 <= i < |entries| ==> Encodable(d, entries[i].key) && Encodable(d, entries[i].val)
    case Tag(num, item) => 0 <= num < TagLimit(d) && Encodable(d, item)
    case BareTag(_) => d.C?
    case Instance(_, _) => false
    case _ => true
  }

  predicate Ready(d: Codec, v: Value) {
    Valid(v) && Encodable(d, v)
  }

  predicate ReadyAll(d: Codec, vs: seq<Value>) {
    forall i :: 0 <= i < |vs| ==> Ready(d, vs[i])
  }

  predicate ReadyEntries(d: Codec, es: seq<Entry>) {
    forall i :: 0 <= i < |es| ==> Ready(d, es[i].key) && Ready(d, es[i].val)
  }

  function Enc(d: Codec, v: Value): seq<byte>
    requires Ready(d, v)
  {
    match v
    case Null => [TypeOr(SEVEN, 22)]
    case Bool(b) => [TypeOr(SEVEN, if b then 21 else 20)]
    case Int(n) => IntOut(d, n)
    case Bytes(data) => Head(BYTES, |data|) + data
    case Text(data) => Head(TEXT, |data|) + data
    case Float(payload) => [FloatHead(payload)] + payload
    case List(items, _) => Head(ARRAY, |items|) + EncAll(d, items)
    case Dict(entries) => Head(MAP, |entries|) + EncEntries(d, entries)
    case Tag(num, item) => Head(TAG, num) + Enc(d, item)
    case BareTag(_) => []
  }

  function EncAll(d: Codec, vs: seq<Value>): seq<byte>
    requires ReadyAll(d, vs)
  {
    if vs == [] then [] else Enc(d, vs[0]) + EncAll(d, vs[1..])
  }

  function EncEntries(d: Codec, es: seq<Entry>): seq<byte>
    requires ReadyEntries(d, es)
  {
    if es == [] then [] else EncEntry(d, es[0]) + EncEntries(d, es[1..])
  }

  function EncEntry(d: Codec, e: Entry): seq<byte>
    requires Ready(d, e.key) && Ready(d, e.val)
  {
    Enc(d, e.key) + Enc(d, e.val)
  }

  // ---------- With and without sort_keys ----------

  /** `dumps` succeeds; with `sort`, for objects that are `Orderable`. */
  predicate Accepts(d: Codec, sort: bool, v: Value)
    requires Valid(v)
  {
    Encodable(d, v) && (sort ==> Sortable(v))
  }

  /** What `dumps` returns. */
  function Output(d: Codec, sort: bool, v: Value): seq<byte>
    requires Valid(v) && Accepts(d, sort, v)
  {
    if sort then
      CanonReady(d, v);
      Enc(d, Canon(v))
    else Enc(d, v)
  }

  lemma {:induction false} CanonReady(d: Codec, v: Value)
    requires Valid(v) && Encodable(d, v)
    ensures Ready(d, Canon(v))
    decreases v, 1
  {
    CanonValid(v);
    match v
    case List(items, _) => CanonReadyAll(d, items);
    case Dict(entries) => CanonReadyDict(d, v);
    case Tag(_, item) => CanonReady(d, item);
    case _ =>
  }

  lemma {:induction false} CanonReadyAll(d: Codec, vs: seq<Value>)
    requires ReadyAll(d, vs)
    ensures ReadyAll(d, CanonAll(vs))
    decreases vs
  {
    if vs != [] {
      CanonReady(d, vs[0]);
      CanonReadyAll(d, vs[1..]);
      forall i | 0 <= i < |vs| ensures Ready(d, CanonAll(vs)[i]) {
        if i > 0 {
          assert CanonAll(vs)[i] == CanonAll(vs[1..])[i - 1];
        }
      }
    }
  }

  lemma {:induction false} CanonReadyDict(d: Codec, v: Value)
    requires v.Dict? && Valid(v) && Encodable(d, v)
    ensures Encodable(d, Canon(v))
    decreases v, 0
  {
    var es := v.entries;
    var cs := CanonEntries(es);
    CanonKeys(es);
    forall x | x in cs ensures Encodable(d, x.key) && Encodable(d, x.val) {
      var i :| 0 <= i < |cs| && cs[i] == x;
      assert x == CanonEntry(es[i]);
      CanonReady(d, es[i].val);
    }
    SortMembers(cs);
    var r := Sort(cs);
    forall k | 0 <= k < |r| ensures Encodable(d, r[k].key) && Encodable(d, r[k].val) {
      assert r[k] in r;
    }
  }

  // ---------- The data item an encoder writes ----------

  function IntItem(d: Codec, n: int): (w: DataItem)
    requires SizedInt(n)
    ensures Readable(w)
  {
    if n >= 0 then
      if n < UintLimit(d) then WInt(false, Shortest(n), n) else BignumItem(d, TAG_BIGNUM, n)
    else
      var m: nat := -1 - n;
      if m < INT64_LIMIT then WInt(true, Shortest(m), m) else BignumItem(d, TAG_NEGBIGNUM, m)
  }

  function BignumItem(d: Codec, num: byte, n: nat): (w: DataItem)
    requires num < 24 && |MinBE(n)| < MAX_LENGTH
    ensures Readable(w)
  {
    BigBytesSize(d, n);
    var data := BigBytes(d, n);
    WTag(Imm, num, WStr(false, Shortest(|data|), data))
  }

  /** What is written for the object is a data item: it contains no tag whose number is None. */
  predicate HasItem(v: Value) {
    match v
    case List(items, _) => forall i :: 0 <= i < |items| ==> HasItem(items[i])
    case Dict(entries) =>
      forall i :: 0 <= i < |entries| ==> HasItem(entries[i].key) && HasItem(entries[i].val)
    case Tag(_, item) => HasItem(item)
    case BareTag(_) => false
    case _ => true
  }

  predicate EntriesHaveItems(es: seq<Entry>) {
    forall i :: 0 <= i < |es| ==> HasItem(es[i].key) && HasItem(es[i].val)
  }

  function ItemOf(d: Codec, v: Value): (w: DataItem)
    requires Ready(d, v) && HasItem(v)
    ensures Readable(w)
  {
    match v
    case Null => WSimple(Imm, 22)
    case Bool(b) => WSimple(Imm, if b then 21 else 20)
    case Int(n) => IntItem(d, n)
    case Bytes(data) => WStr(false, Shortest(|data|), data)
    case Text(data) => WStr(true, Shortest(|data|), data)
    case Float(payload) => WFloat(payload)
    case List(items, _) => WGroup(false, Shortest(|items|), ItemsOf(d, items))
    case Dict(entries) => WGroup(true, Shortest(|entries|), ItemsOfEntries(d, entries))
    case Tag(num, item) => WTag(Shortest(num), num, ItemOf(d, item))
  }

  function ItemsOf(d: Codec, vs: seq<Value>): (ws: seq<DataItem>)
    requires ReadyAll(d, vs) && forall i :: 0 <= i < |vs| ==> HasItem(vs[i])
    ensures |ws| == |vs| && ReadableAll(ws)
  {
    if vs == [] then [] else [ItemOf(d, vs[0])] + ItemsOf(d, vs[1..])
  }

  function ItemsOfEntries(d: Codec, es: seq<Entry>): (ws: seq<DataItem>)
    requires ReadyEntries(d, es) && EntriesHaveItems(es)
    ensures |ws| == 2 * |es| && ReadableAll(ws)
  {
    if es == [] then [] else ItemsOfEntry(d, es[0]) + ItemsOfEntries(d, es[1..])
  }

  function ItemsOfEntry(d: Codec, e: Entry): (ws: seq<DataItem>)
    requires Ready(d, e.key) && Ready(d, e.val) && HasItem(e.key) && HasItem(e.val)
    ensures |ws| == 2 && ReadableAll(ws)
  {
    [ItemOf(d, e.key), ItemOf(d, e.val)]
  }

  /** An encoder writes well-formed data items. */
  lemma {:induction false} EncIsItem(d: Codec, v: Value)
    requires Ready(d, v) && HasItem(v)
    ensures Enc(d, v) == Flatten(ItemOf(d, v))
    decreases v, 1
  {
    match v
    case Int(n) => IntIsItem(d, n);
    case List(_, _) => ListIsItem(d, v);
    case Dict(_) => DictIsItem(d, v);
    case Tag(_, _) => TagIsItem(d, v);
    case _ => LeafIsItem(d, v);
  }

  lemma LeafIsItem(d: Codec, v: Value)
    requires Ready(d, v) && HasItem(v) && !v.List? && !v.Dict? && !v.Tag? && !v.Int?
    ensures Enc(d, v) == Flatten(ItemOf(d, v))
  {
    match v
    case Null => ShortHead(SEVEN, 22);
    case Bool(b) => ShortHead(SEVEN, if b then 21 else 20);
    case Bytes(data) => FlattenStr(false, data);
    case Text(data) => FlattenStr(true, data);
    case _ =>
  }

  lemma {:induction false} ListIsItem(d: Codec, v: Value)
    requires v.List? && Ready(d, v) && HasItem(v)
    ensures Enc(d, v) == Flatten(ItemOf(d, v))
    decreases v, 0
  {
    EncAllIsItems(d, v.items);
    FlattenGroup(false, |v.items|, ItemsOf(d, v.items));
    assert ItemOf(d, v) == WGroup(false, Shortest(|v.items|), ItemsOf(d, v.items));
  }

  lemma {:induction false} DictIsItem(d: Codec, v: Value)
    requires v.Dict? && Ready(d, v) && HasItem(v)
    ensures Enc(d, v) == Flatten(ItemOf(d, v))
    decreases v, 0
  {
    var es := v.entries;
    var ws := ItemsOfEntries(d, es);
    assert Enc(d, v) == Head(MAP, |es|) + EncEntries(d, es);
    assert ItemOf(d, v) == WGroup(true, Shortest(|es|), ws);
    EncEntriesIsItems(d, es);
    FlattenGroup(true, |es|, ws);
  }

  lemma FlattenTag(wd: Width, num: nat, w: DataItem)
    requires Readable(w) && Fits(wd, num)
    ensures Flatten(WTag(wd, num, w)) == HeadAt(TAG, wd, num) + Flatten(w)
  {
  }

  lemma FlattenStr(text: bool, data: seq<byte>)
    requires |data| < MAX_LENGTH
    ensures Flatten(WStr(text, Shortest(|data|), data)) == Head(StrType(text), |data|) + data
  {
  }

  lemma FlattenGroup(isMap: bool, n: nat, ws: seq<DataItem>)
    requires n < MAX_LENGTH && |ws| == (if isMap then 2 * n else n) && ReadableAll(ws)
    ensures Readable(WGroup(isMap, Shortest(n), ws))
    ensures Flatten(WGroup(isMap, Shortest(n), ws)) == Head(GroupType(isMap), n) + FlattenAll(ws)
  {
    assert Count(isMap, ws) == n;
  }

  lemma {:induction false} TagIsItem(d: Codec, v: Value)
    requires v.Tag? && Ready(d, v) && HasItem(v)
    ensures Enc(d, v) == Flatten(ItemOf(d, v))
    decreases v, 0
  {
    var w := ItemOf(d, v.item);
    assert ItemOf(d, v) == WTag(Shortest(v.num), v.num, w);
    assert Enc(d, v) == Head(TAG, v.num) + Enc(d, v.item);
    EncIsItem(d, v.item);
    FlattenTag(Shortest(v.num), v.num, w);
  }

  lemma BignumIsItem(d: Codec, num: byte, n: nat)
    requires num < 24 && |MinBE(n)| < MAX_LENGTH && |BigBytes(d, n)| < MAX_LENGTH
    ensures BignumOut(d, num, n) == Flatten(BignumItem(d, num, n))
  {
    var data := BigBytes(d, n);
    var head, w := Head(BYTES, |data|), WStr(false, Shortest(|data|), data);
    calc {
      Flatten(BignumItem(d, num, n));
      Flatten(WTag(Imm, num, w));
      { FlattenTag(Imm, num, w); ShortHead(TAG, num); }
      [TypeOr(TAG, num)] + Flatten(w);
      { FlattenStr(false, data); }
      [TypeOr(TAG, num)] + (head + data);
      { Assoc([TypeOr(TAG, num)], head, data); }
      [TypeOr(TAG, num)] + head + data;
    }
  }

  lemma IntIsItem(d: Codec, n: int)
    requires SizedInt(n)
    ensures IntOut(d, n) == Flatten(IntItem(d, n))
  {
    var m: nat := if n < 0 then -1 - n else n;
    BigBytesSize(d, m);
    if n >= UintLimit(d) {
      BignumIsItem(d, TAG_BIGNUM, m);
    } else if n < 0 && m >= INT64_LIMIT {
      BignumIsItem(d, TAG_NEGBIGNUM, m);
    }
  }

  lemma {:induction false} EncAllIsItems(d: Codec, vs: seq<Value>)
    requires ReadyAll(d, vs) && forall i :: 0 <= i < |vs| ==> HasItem(vs[i])
    ensures EncAll(d, vs) == FlattenAll(ItemsOf(d, vs))
    decreases vs
  {
    if vs != [] {
      EncIsItem(d, vs[0]);
      EncAllIsItems(d, vs[1..]);
      assert ItemsOf(d, vs)[1..] == ItemsOf(d, vs[1..]);
    }
  }

  lemma FlattenTwo(k: DataItem, v: DataItem, ws: seq<DataItem>)
    requires Readable(k) && Readable(v) && ReadableAll(ws)
    ensures ReadableAll([k, v] + ws)
    ensures FlattenAll([k, v] + ws) == Flatten(k) + Flatten(v) + FlattenAll(ws)
  {
    FlattenAllCons(v, ws);
    FlattenAllCons(k, [v] + ws);
    assert [k, v] + ws == [k] + ([v] + ws);
    Assoc(Flatten(k), Flatten(v), FlattenAll(ws));
  }

  lemma {:induction false} EncEntriesIsItems(d: Codec, es: seq<Entry>)
    requires ReadyEntries(d, es) && EntriesHaveItems(es)
    ensures EncEntries(d, es) == FlattenAll(ItemsOfEntries(d, es))
    decreases es
  {
    if es != [] {
      assert es decreases to es[0];
      EncIsItem(d, es[0].key);
      EncIsItem(d, es[0].val);
      EncEntriesIsItems(d, es[1..]);
      FlattenTwo(ItemOf(d, es[0].key), ItemOf(d, es[0].val), ItemsOfEntries(d, es[1..]));
    }
  }
}
