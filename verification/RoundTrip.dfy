/** What survives encoding with either encoder and decoding with either decoder. */
module RoundTrip {
  import opened Prelude
  import opened BigEndian
  import opened Values
  import opened Wire
  import opened Encoding
  import Delimiting
  import Holes

  /** Tag numbers that a reading does not hand out as tags. */
  predicate Consumed(p: Reading, num: int) {
    num == TAG_BIGNUM || num == TAG_NEGBIGNUM || (p.FromPython? && (num == TAG_DATE || num == TAG_REGEX))
  }

  const BIGNUM_LIMIT: nat := 0x1_00000000_00000000_00000000_00000000_00000000_000000  // 2^184

  /** The integers that C bignums of 23 bytes can hold. */
  predicate InBignumRange(n: int) {
    0 - BIGNUM_LIMIT <= n < BIGNUM_LIMIT
  }

  lemma BignumLimit()
    ensures Pow256(C_BIGNUM_BYTES) == BIGNUM_LIMIT
  {
    Powers();
  }

  /** The values that encoder `d` writes so that the reading `p` recovers them. */
  predicate Survives(d: Codec, p: Reading, v: Value) {
    match v
    case Int(n) => d.C? || InC(p) ==> InBignumRange(n)
    case List(items, _) => !Endless(p, |items|) && forall i :: 0 <= i < |items| ==> Survives(d, p, items[i])
    case Dict(entries) =>
      !Endless(p, |entries|) && forall i :: 0 <= i < |entries| ==> Survives(d, p, entries[i].key) && Survives(d, p, entries[i].val)
    case Tag(num, item) => !Consumed(p, num) && Survives(d, p, item)
    case _ => true
  }

  predicate SurvivesAll(d: Codec, p: Reading, vs: seq<Value>) {
    forall i :: 0 <= i < |vs| ==> Survives(d, p, vs[i])
  }

  predicate SurvivesEntries(d: Codec, p: Reading, es: seq<Entry>) {
    forall i :: 0 <= i < |es| ==> SurvivesEntry(d, p, es[i])
  }

  predicate SurvivesEntry(d: Codec, p: Reading, e: Entry) {
    Survives(d, p, e.key) && Survives(d, p, e.val)
  }

  // ---------- Integers ----------

  /** The number that the payload of a bignum stands for. */
  lemma BignumValue(d: Codec, m: nat)
    ensures FromBE(BigBytes(d, m)) == m <==> (d.C? ==> m < BIGNUM_LIMIT)
    ensures |BigBytes(d, m)| <= C_BIGNUM_BYTES <==> (d.C? || m < BIGNUM_LIMIT)
  {
    BignumLimit();
    var p := Pow256(C_BIGNUM_BYTES);
    if d.C? {
      LowBytesValue(m, C_BIGNUM_BYTES);
      if m < p {
        DivModUnique(m, p, 0, m);
      }
    } else {
      MinBEInverse(m);
      MinBELength(m, C_BIGNUM_BYTES);
    }
  }

  lemma BignumMeaning(d: Codec, p: Reading, num: byte, m: nat)
    requires (num == TAG_BIGNUM || num == TAG_NEGBIGNUM) && |MinBE(m)| < MAX_LENGTH
    ensures Meaning(p, BignumItem(d, num, m)) ==
            if InC(p) && |BigBytes(d, m)| > 23 then None else Bignum(num, BigBytes(d, m))
  {
    BigBytesSize(d, m);
    PayloadMeaning(p, num, BigBytes(d, m));
  }

  lemma PayloadMeaning(p: Reading, num: byte, data: seq<byte>)
    requires (num == TAG_BIGNUM || num == TAG_NEGBIGNUM) && |data| < MAX_LENGTH
    ensures Meaning(p, WTag(Imm, num, WStr(false, Shortest(|data|), data))) ==
            if InC(p) && |data| > 23 then None else Bignum(num, data)
  {
    assert Meaning(p, WStr(false, Shortest(|data|), data)) == Some(Bytes(data));
  }

  lemma IntSurvives(d: Codec, p: Reading, n: int)
    requires SizedInt(n)
    ensures Meaning(p, IntItem(d, n)) == Some(Int(n)) <==> (d.C? || InC(p) ==> InBignumRange(n))
  {
    if 0 - INT64_LIMIT <= n < UintLimit(d) {
      HeadSurvives(d, p, n);
    } else if n >= 0 {
      assert IntItem(d, n) == BignumItem(d, TAG_BIGNUM, n);
      BigIntSurvives(d, p, n, TAG_BIGNUM, n);
    } else {
      assert IntItem(d, n) == BignumItem(d, TAG_NEGBIGNUM, -1 - n);
      BigIntSurvives(d, p, n, TAG_NEGBIGNUM, -1 - n);
    }
  }

  /** An integer in a head. */
  lemma HeadSurvives(d: Codec, p: Reading, n: int)
    requires 0 - INT64_LIMIT <= n < UintLimit(d) && SizedInt(n)
    ensures Meaning(p, IntItem(d, n)) == Some(Int(n)) && InBignumRange(n)
  {
  }

  lemma BigIntSurvives(d: Codec, p: Reading, n: int, num: byte, m: nat)
    requires |MinBE(m)| < MAX_LENGTH
    requires (num == TAG_BIGNUM && n == m) || (num == TAG_NEGBIGNUM && n == -1 - m)
    ensures Meaning(p, BignumItem(d, num, m)) == Some(Int(n)) <==> (d.C? || InC(p) ==> InBignumRange(n))
  {
    BignumMeaning(d, p, num, m);
    BignumValue(d, m);
  }

  // ---------- Values ----------

  /** The encoder writes the bytes of the item. */
  ghost predicate Writes(d: Codec, v: Value, w: DataItem)
    requires Ready(d, v)
  {
    Readable(w) && Flatten(w) == Enc(d, v)
  }

  /**
    The round trip: for any object that an encoder takes, and any decoder, what was written
    is an item that means the object, with lists for tuples, if and only if there is no tag
    without a number in the object and it survives.
   */
  lemma RoundTrips(d: Codec, p: Reading, v: Value)
    requires Ready(d, v)
    ensures (exists w :: Writes(d, v, w) && Meaning(p, w) == Some(Norm(v))) <==> HasItem(v) && Survives(d, p, v)
  {
    if HasItem(v) {
      var u := ItemOf(d, v);
      EncIsItem(d, v);
      ItemRoundTrips(d, p, v);
      assert Writes(d, v, u);
      forall w | Writes(d, v, w) ensures w == u {
        Delimiting.ItemUnique(w, [], u, []);
      }
    } else {
      PythonHasItem(d, v);
      forall w | Readable(w) ensures !Writes(d, v, w) {
        Holes.NoItem(v, w, []);
        assert Flatten(w) + [] == Flatten(w);
      }
    }
  }

  /** The Python encoder takes no tag without a number. */
  lemma {:induction false} PythonHasItem(d: Codec, v: Value)
    requires Encodable(d, v)
    ensures d.Python? ==> HasItem(v)
    decreases v
  {
    match v
    case List(items, _) =>
      forall i | 0 <= i < |items| ensures d.Python? ==> HasItem(items[i]) {
        PythonHasItem(d, items[i]);
      }
    case Dict(entries) =>
      forall i | 0 <= i < |entries| ensures d.Python? ==> HasItem(entries[i].key) && HasItem(entries[i].val) {
        assert entries decreases to entries[i];
        PythonHasItem(d, entries[i].key);
        PythonHasItem(d, entries[i].val);
      }
    case Tag(_, item) => PythonHasItem(d, item);
    case _ =>
  }

  /** The same of the item that the encoder is known to write. */
  lemma {:induction false} ItemRoundTrips(d: Codec, p: Reading, v: Value)
    requires Ready(d, v) && HasItem(v)
    ensures Meaning(p, ItemOf(d, v)) == Some(Norm(v)) <==> Survives(d, p, v)
    decreases v, 1
  {
    match v
    case Int(n) => IntSurvives(d, p, n);
    case List(items, _) => ListRoundTrips(d, p, v);
    case Dict(entries) => DictRoundTrips(d, p, v);
    case Tag(num, item) => TagRoundTrips(d, p, v);
    case _ =>
  }

  lemma {:induction false} TagRoundTrips(d: Codec, p: Reading, v: Value)
    requires v.Tag? && Ready(d, v) && HasItem(v)
    ensures Meaning(p, ItemOf(d, v)) == Some(Norm(v)) <==> Survives(d, p, v)
    decreases v, 0
  {
    ItemRoundTrips(d, p, v.item);
    assert ItemOf(d, v) == WTag(Shortest(v.num), v.num, ItemOf(d, v.item));
    if Consumed(p, v.num) {
      TagIsConsumed(p, Shortest(v.num), v.num, ItemOf(d, v.item));
    } else {
      TagIsKept(p, Shortest(v.num), v.num, ItemOf(d, v.item));
    }
  }

  /** A consumed tag never comes out as a tag. */
  lemma TagIsConsumed(p: Reading, wd: Width, num: nat, w: DataItem)
    requires Consumed(p, num)
    ensures var r := Meaning(p, WTag(wd, num, w)); r.Some? ==> !r.value.Tag?
  {
  }

  /** Every other tag does. */
  lemma TagIsKept(p: Reading, wd: Width, num: nat, w: DataItem)
    requires !Consumed(p, num) && !wd.Reserved?
    ensures var m := Meaning(p, w);
            Meaning(p, WTag(wd, num, w)) == if m.Some? then Some(Tag(num, m.value)) else None
  {
  }

  lemma {:induction false} ListRoundTrips(d: Codec, p: Reading, v: Value)
    requires v.List? && Ready(d, v) && HasItem(v)
    ensures Meaning(p, ItemOf(d, v)) == Some(Norm(v)) <==> Survives(d, p, v)
    decreases v, 0
  {
    AllRoundTrip(d, p, v.items);
    ListMeaning(d, p, v.items, v.frozen);
  }

  lemma ListMeaning(d: Codec, p: Reading, items: seq<Value>, frozen: bool)
    requires Ready(d, List(items, frozen)) && HasItem(List(items, frozen))
    ensures var r, all := Meaning(p, ItemOf(d, List(items, frozen))), MeaningAll(p, ItemsOf(d, items));
            r == Some(List(NormAll(items), false)) <==> !Endless(p, |items|) && all == Some(NormAll(items))
  {
    assert ItemOf(d, List(items, frozen)) == WGroup(false, Shortest(|items|), ItemsOf(d, items));
  }

  lemma BothEqual(a: Option<Value>, b: Option<seq<Value>>, v: Value, vs: seq<Value>)
    ensures Both(a, b) == Some([v] + vs) <==> a == Some(v) && b == Some(vs)
  {
    if Both(a, b) == Some([v] + vs) {
      assert ([a.value] + b.value)[0] == ([v] + vs)[0];
      assert ([a.value] + b.value)[1..] == b.value && ([v] + vs)[1..] == vs;
    }
  }

  lemma {:induction false} AllRoundTrip(d: Codec, p: Reading, vs: seq<Value>)
    requires ReadyAll(d, vs) && forall i :: 0 <= i < |vs| ==> HasItem(vs[i])
    ensures MeaningAll(p, ItemsOf(d, vs)) == Some(NormAll(vs)) <==> SurvivesAll(d, p, vs)
    decreases vs
  {
    if vs != [] {
      ItemRoundTrips(d, p, vs[0]);
      AllRoundTrip(d, p, vs[1..]);
      var w, ws := ItemOf(d, vs[0]), ItemsOf(d, vs[1..]);
      MeaningCons(p, w, ws);
      assert ItemsOf(d, vs) == [w] + ws;
      BothEqual(Meaning(p, w), MeaningAll(p, ws), Norm(vs[0]), NormAll(vs[1..]));
      SurvivesAllCons(d, p, vs);
    }
  }

  lemma SurvivesAllCons(d: Codec, p: Reading, vs: seq<Value>)
    requires vs != []
    ensures SurvivesAll(d, p, vs) <==> Survives(d, p, vs[0]) && SurvivesAll(d, p, vs[1..])
  {
    assert forall i :: 0 <= i < |vs[1..]| ==> vs[1..][i] == vs[i + 1];
    assert forall i :: 1 <= i < |vs| ==> vs[i] == vs[1..][i - 1];
  }

  lemma {:induction false} EntriesRoundTrip(d: Codec, p: Reading, es: seq<Entry>)
    requires ReadyEntries(d, es) && EntriesHaveItems(es)
    ensures MeaningAll(p, ItemsOfEntries(d, es)) == Some(Flat(NormEntries(es))) <==> SurvivesEntries(d, p, es)
    decreases es
  {
    if es != [] {
      assert es decreases to es[0];
      var e, tail := es[0], es[1..];
      ItemRoundTrips(d, p, e.key);
      ItemRoundTrips(d, p, e.val);
      EntriesRoundTrip(d, p, tail);
      var k, v, ws := ItemOf(d, e.key), ItemOf(d, e.val), ItemsOfEntries(d, tail);
      MeaningOfTwo(p, k, v, ws);
      assert ItemsOfEntries(d, es) == [k, v] + ws;
      var vs := Flat(NormEntries(tail));
      BothEqual(Meaning(p, v), MeaningAll(p, ws), Norm(e.val), vs);
      BothEqual(Meaning(p, k), Both(Meaning(p, v), MeaningAll(p, ws)), Norm(e.key), [Norm(e.val)] + vs);
      FlatNormCons(es);
      SurvivesCons(d, p, es);
    }
  }

  lemma MeaningOfTwo(p: Reading, k: DataItem, v: DataItem, ws: seq<DataItem>)
    ensures MeaningAll(p, [k, v] + ws) == Both(Meaning(p, k), Both(Meaning(p, v), MeaningAll(p, ws)))
  {
    var all := [k, v] + ws;
    assert all[1..] == [v] + ws && all[1..][1..] == ws;
  }

  lemma FlatCons(e: Entry, es: seq<Entry>)
    ensures Flat([e] + es) == [e.key] + ([e.val] + Flat(es))
  {
    assert ([e] + es)[1..] == es;
    assert [e.key, e.val] + Flat(es) == [e.key] + ([e.val] + Flat(es));
  }

  lemma FlatNormCons(es: seq<Entry>)
    requires es != []
    ensures Flat(NormEntries(es)) == [Norm(es[0].key)] + ([Norm(es[0].val)] + Flat(NormEntries(es[1..])))
  {
    FlatCons(NormEntry(es[0]), NormEntries(es[1..]));
  }

  lemma SurvivesCons(d: Codec, p: Reading, es: seq<Entry>)
    requires es != []
    ensures SurvivesEntries(d, p, es) <==> SurvivesEntry(d, p, es[0]) && SurvivesEntries(d, p, es[1..])
  {
    assert forall i :: 0 <= i < |es[1..]| ==> es[1..][i] == es[i + 1];
    assert forall i :: 1 <= i < |es| ==> es[i] == es[1..][i - 1];
  }

  /** Keys and values make this dict exactly if they are its keys and values, in order. */
  lemma BuildsExactly(kvs: Option<seq<Value>>, es: seq<Entry>)
    requires ScalarKeys(es) && DistinctKeys(es)
    requires kvs.Some? ==> |kvs.value| == 2 * |es|
    ensures Grouped(true, kvs) == Some(Dict(es)) <==> kvs == Some(Flat(es))
  {
    BuildFlat(es);
    if Grouped(true, kvs) == Some(Dict(es)) {
      BuildNoCollision(kvs.value);
    }
  }

  lemma {:induction false} DictRoundTrips(d: Codec, p: Reading, v: Value)
    requires v.Dict? && Ready(d, v) && HasItem(v)
    ensures Meaning(p, ItemOf(d, v)) == Some(Norm(v)) <==> Survives(d, p, v)
    decreases v, 0
  {
    var es := v.entries;
    DictReady(d, es);
    DictMeaning(d, p, es);
    SurvivesDict(d, p, es);
    EntriesRoundTrip(d, p, es);
    NormKeys(es);
    BuildsExactly(MeaningAll(p, ItemsOfEntries(d, es)), NormEntries(es));
  }

  lemma DictReady(d: Codec, es: seq<Entry>)
    requires Ready(d, Dict(es)) && HasItem(Dict(es))
    ensures ScalarKeys(es) && DistinctKeys(es) && ReadyEntries(d, es) && EntriesHaveItems(es)
    ensures |es| < MAX_LENGTH
  {
  }

  lemma DictMeaning(d: Codec, p: Reading, es: seq<Entry>)
    requires Ready(d, Dict(es)) && HasItem(Dict(es)) && ReadyEntries(d, es) && EntriesHaveItems(es)
    requires |es| < MAX_LENGTH
    ensures Meaning(p, ItemOf(d, Dict(es))) ==
            if Endless(p, |es|) then None else Grouped(true, MeaningAll(p, ItemsOfEntries(d, es)))
  {
    assert ItemOf(d, Dict(es)) == WGroup(true, Shortest(|es|), ItemsOfEntries(d, es));
  }

  lemma SurvivesDict(d: Codec, p: Reading, es: seq<Entry>)
    ensures Norm(Dict(es)) == Dict(NormEntries(es))
    ensures Survives(d, p, Dict(es)) <==> !Endless(p, |es|) && SurvivesEntries(d, p, es)
  {
  }
}
