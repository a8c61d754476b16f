/**
  The two implementations against each other, byte for byte: every pairing of an encoder
  with a decoder, the two encoders on one object, the two decoders on one item.
 */
module Interop {
  import opened Prelude
  import opened BigEndian
  import opened Values
  import opened Wire
  import opened Encoding
  import opened RoundTrip
  import opened Readings
  import C = CGrammar
  import CCompleteness
  import CSoundness
  import Py = PyGrammar
  import PyCompleteness
  import PySoundness
  import Delimiting
  import Stability
  import Holes

  // ---------- Encoders with decoders ----------

  /**
    Either encoder with the C decoder, on any object that the encoder takes: the object comes
    back and the reader stands exactly behind its bytes, if and only if no tag without a
    number is in it and it survives.
   */
  lemma DecodedByC(d: Codec, m: C.Mode, v: Value, rest: seq<byte>)
    requires Ready(d, v)
    ensures C.Item(m, Enc(d, v) + rest) == C.Ok(Norm(v), rest) <==>
            HasItem(v) && Survives(d, CCompleteness.ReadingOf(m), v)
  {
    if HasItem(v) {
      EncIsItem(d, v);
      CSoundness.ItemVerdict(m, ItemOf(d, v), rest);
      ItemRoundTrips(d, CCompleteness.ReadingOf(m), v);
    } else {
      PythonHasItem(d, v);
      StopsElsewhere(m, v, rest);
    }
  }

  /** Either encoder with the Python decoder, which also reports the number of bytes. */
  lemma DecodedByPython(d: Codec, v: Value, rest: seq<byte>)
    requires Ready(d, v)
    ensures Py.Item(Enc(d, v) + rest) == Py.Got(Norm(v), rest, |Enc(d, v)|) <==>
            HasItem(v) && Survives(d, FromPython, v)
  {
    if HasItem(v) {
      var w := ItemOf(d, v);
      EncIsItem(d, v);
      PyCompleteness.ReadItem(w, rest);
      CountIsLength(d, v);
      ItemRoundTrips(d, FromPython, v);
    } else {
      PythonHasItem(d, v);
      StopsElsewhere(C.Buffer, v, rest);
    }
  }

  /** With a tag without a number in the object no decoder stops behind its bytes, whatever follows them. */
  lemma StopsElsewhere(m: C.Mode, v: Value, rest: seq<byte>)
    requires Ready(Codec.C, v) && !HasItem(v)
    ensures var r := C.Item(m, Enc(Codec.C, v) + rest); r.Ok? ==> r.rest != rest
    ensures var r := Py.Item(Enc(Codec.C, v) + rest); r.Got? ==> r.rest != rest
  {
    var s := Enc(Codec.C, v) + rest;
    var c, py := C.Item(m, s), Py.Item(s);
    if c.Ok? && c.rest == rest {
      var w := CSoundness.ReadsItem(m, s);
      Cancel(Enc(Codec.C, v), Flatten(w), rest);
      NotTheItem(v, w);
    }
    if py.Got? && py.rest == rest {
      var w, q := PySoundness.ExplainsItem(s);
      if q == [] {
        assert s + q == s;
        Cancel(Enc(Codec.C, v), Flatten(w), rest);
        NotTheItem(v, w);
      } else {
        assert s == Enc(Codec.C, v);
        Holes.NotAccepted(v, m, 0);
      }
    }
  }

  lemma Cancel(x: seq<byte>, y: seq<byte>, rest: seq<byte>)
    requires x + rest == y + rest
    ensures x == y
  {
    assert |x| == |y|;
    assert (x + rest)[..|x|] == x && (y + rest)[..|y|] == y;
  }

  lemma NotTheItem(v: Value, w: DataItem)
    requires Ready(Codec.C, v) && !HasItem(v) && Readable(w)
    ensures Enc(Codec.C, v) != Flatten(w)
  {
    Holes.NoItem(v, w, []);
    assert Flatten(w) + [] == Flatten(w);
  }

  /** `loads` of the C decoder rejects all that an encoding starts with and, if it is no item, all of it. */
  lemma TruncationRejected(d: Codec, v: Value, k: nat)
    requires Ready(d, v) && k <= |Enc(d, v)|
    ensures k < |Enc(d, v)| || !HasItem(v) ==> C.Item(C.Buffer, Enc(d, v)[..k]) == C.Fail
  {
    if HasItem(v) {
      if k < |Enc(d, v)| {
        EncIsItem(d, v);
        Stability.PrefixRejected(C.Buffer, ItemOf(d, v), k);
      }
    } else {
      PythonHasItem(d, v);
      Holes.NotAccepted(v, C.Buffer, k);
    }
    Stability.BufferNeverStalls(Enc(d, v)[..k]);
  }

  /** What an encoder writes contains no indefinite container: the count is exact. */
  lemma CountIsLength(d: Codec, v: Value)
    requires Ready(d, v) && HasItem(v)
    ensures PyCompleteness.Cost(ItemOf(d, v)) == |Enc(d, v)|
  {
    var w := ItemOf(d, v);
    EncIsItem(d, v);
    NothingOpen(d, v);
    PyCompleteness.CostLaw(w);
    PyCompleteness.ExcessZero(w);
  }

  lemma {:induction false} NothingOpen(d: Codec, v: Value)
    requires Ready(d, v) && HasItem(v)
    ensures PyCompleteness.NoOpenGroup(ItemOf(d, v))
    decreases v
  {
    match v
    case List(items, _) => NothingOpenAll(d, items);
    case Dict(entries) => NothingOpenEntries(d, entries);
    case Tag(_, item) => NothingOpen(d, item);
    case _ =>
  }

  lemma {:induction false} NothingOpenAll(d: Codec, vs: seq<Value>)
    requires ReadyAll(d, vs) && forall i :: 0 <= i < |vs| ==> HasItem(vs[i])
    ensures forall w :: w in ItemsOf(d, vs) ==> PyCompleteness.NoOpenGroup(w)
    decreases vs
  {
    if vs != [] {
      NothingOpen(d, vs[0]);
      NothingOpenAll(d, vs[1..]);
    }
  }

  lemma {:induction false} NothingOpenEntries(d: Codec, es: seq<Entry>)
    requires ReadyEntries(d, es) && EntriesHaveItems(es)
    ensures forall w :: w in ItemsOfEntries(d, es) ==> PyCompleteness.NoOpenGroup(w)
    decreases es
  {
    if es != [] {
      assert es decreases to es[0];
      NothingOpen(d, es[0].key);
      NothingOpen(d, es[0].val);
      NothingOpenEntries(d, es[1..]);
    }
  }

  /** What is left of an integer that goes through the C encoder. */
  function Cut(n: int): int {
    if n >= 0 then n % BIGNUM_LIMIT else -1 - (-1 - n) % BIGNUM_LIMIT
  }

  /**
    The C encoder cuts a bignum down to its low 23 bytes: every decoder reads an integer
    that it wrote back as `Cut(n)`, which is `n` only in the range of a bignum.
   */
  lemma BignumIsCut(n: int, rest: seq<byte>)
    requires SizedInt(n)
    ensures forall m :: C.Item(m, Enc(Codec.C, Int(n)) + rest) == C.Ok(Int(Cut(n)), rest)
    ensures var r := Py.Item(Enc(Codec.C, Int(n)) + rest); r.Got? && r.value == Int(Cut(n)) && r.rest == rest
    ensures Cut(n) == n <==> InBignumRange(n)
  {
    var v := Int(n);
    EncIsItem(Codec.C, v);
    forall m ensures C.Item(m, Enc(Codec.C, v) + rest) == C.Ok(Int(Cut(n)), rest) {
      CCompleteness.ReadItem(m, ItemOf(Codec.C, v), rest);
      CutIsRead(CCompleteness.ReadingOf(m), n);
    }
    PyCompleteness.ReadItem(ItemOf(Codec.C, v), rest);
    CutIsRead(FromPython, n);
    CutIsSmall(n);
  }

  lemma CutIsSmall(n: int)
    ensures Cut(n) == n <==> InBignumRange(n)
    ensures 0 - HEAD_LIMIT <= n < HEAD_LIMIT ==> Cut(n) == n
  {
  }

  lemma CutIsRead(p: Reading, n: int)
    requires SizedInt(n)
    ensures Meaning(p, IntItem(Codec.C, n)) == Some(Int(Cut(n)))
  {
    if 0 - INT64_LIMIT <= n < INT64_LIMIT {
      CutIsSmall(n);
      HeadMeaning(p, n);
    } else {
      var num, m: nat := if n >= 0 then TAG_BIGNUM else TAG_NEGBIGNUM, if n >= 0 then n else -1 - n;
      BignumCut(p, num, m);
      BigItem(n, num, m);
    }
  }

  lemma BigItem(n: int, num: byte, m: nat)
    requires SizedInt(n) && !(0 - INT64_LIMIT <= n < INT64_LIMIT)
    requires num == (if n >= 0 then TAG_BIGNUM else TAG_NEGBIGNUM) && m == (if n >= 0 then n else -1 - n)
    ensures IntItem(Codec.C, n) == BignumItem(Codec.C, num, m)
    ensures Cut(n) == if num == TAG_BIGNUM then m % BIGNUM_LIMIT else -1 - m % BIGNUM_LIMIT
  {
  }

  lemma HeadMeaning(p: Reading, n: int)
    requires 0 - INT64_LIMIT <= n < INT64_LIMIT && SizedInt(n)
    ensures Meaning(p, IntItem(Codec.C, n)) == Some(Int(n))
  {
  }

  lemma BignumCut(p: Reading, num: byte, m: nat)
    requires (num == TAG_BIGNUM || num == TAG_NEGBIGNUM) && |MinBE(m)| < MAX_LENGTH
    ensures Meaning(p, BignumItem(Codec.C, num, m)) ==
            Some(Int(if num == TAG_BIGNUM then m % BIGNUM_LIMIT else -1 - m % BIGNUM_LIMIT))
  {
    BignumMeaning(Codec.C, p, num, m);
    LowBytesValue(m, C_BIGNUM_BYTES);
    BignumLimit();
  }

  /**
    The C encoder writes nothing for a tag whose number is None, and succeeds.  Wherever such
    a tag is in an object, no decoder accepts what was written, and with other bytes behind
    it no decoder stops where they begin; the Python encoder does not take the object.
   */
  lemma BareTagIsLost(v: Value, rest: seq<byte>)
    requires Ready(Codec.C, v) && !HasItem(v)
    ensures (forall m :: C.Item(m, Enc(Codec.C, v)) == C.Fail) && !Py.Item(Enc(Codec.C, v)).Got?
    ensures forall m :: var r := C.Item(m, Enc(Codec.C, v) + rest); r.Ok? ==> r.rest != rest
    ensures var r := Py.Item(Enc(Codec.C, v) + rest); r.Got? ==> r.rest != rest
    ensures !Encodable(Python, v)
  {
    forall m ensures C.Item(m, Enc(Codec.C, v)) == C.Fail {
      Holes.LostToC(v, m);
    }
    Holes.NotAccepted(v, C.Buffer, 0);
    forall m ensures var r := C.Item(m, Enc(Codec.C, v) + rest); r.Ok? ==> r.rest != rest {
      StopsElsewhere(m, v, rest);
    }
    StopsElsewhere(C.Buffer, v, rest);
    if Encodable(Python, v) {
      PythonHasItem(Python, v);
    }
  }

  /** For instance: in a list it leaves a head without its item. */
  lemma HeadWithoutItem(v: Value)
    requires Valid(v)
    ensures var l := List([BareTag(v)], false);
            && Accepts(Codec.C, false, l) && !Accepts(Python, false, l)
            && Output(Codec.C, false, l) == [0x81]
            && (forall m :: C.Item(m, [0x81]) == C.Fail) && Py.Item([0x81]) == Py.Raises
  {
    var l := List([BareTag(v)], false);
    assert !Encodable(Python, l.items[0]);
    ShortHead(ARRAY, 1);
    assert EncAll(Codec.C, [BareTag(v)]) == [] + [];
    EmptyHead();
  }

  /** The head of an array of one, and nothing behind it. */
  lemma EmptyHead()
    ensures (forall m :: C.Item(m, [0x81]) == C.Fail) && Py.Item([0x81]) == Py.Raises
  {
    var s: seq<byte> := [0x81];
    assert s[1..] == [];
    forall m ensures C.Item(m, s) == C.Fail {
      assert C.ItemAfter(m, 0x81, []) == C.Body(m, ARRAY, 1, 1, []);
      assert C.Items(m, [], 1) == C.Fail;
    }
    assert Py.ItemAfter(0x81, []) == Py.Body(0x81, Some(1), [], 1);
    assert Py.Items([], 1) == Py.Raises;
  }

  // ---------- The two encoders ----------

  /** The integers that both encoders write alike. */
  predicate SameInt(n: int) {
    InBignumRange(n) && !(INT64_LIMIT <= n < HEAD_LIMIT)
  }

  predicate SameInts(v: Value) {
    match v
    case Int(n) => SameInt(n)
    case List(items, _) => forall i :: 0 <= i < |items| ==> SameInts(items[i])
    case Dict(entries) => forall i :: 0 <= i < |entries| ==> SameIntsEntry(entries[i])
    case Tag(_, item) => SameInts(item)
    case _ => true
  }

  predicate SameIntsEntry(e: Entry) {
    SameInts(e.key) && SameInts(e.val)
  }

  /**
    The encoders agree byte for byte if and only if no integer in the object is in
    [2^63, 2^64), where C alone writes a bignum, or beyond the range of a C bignum.
   */
  lemma SameBytes(v: Value)
    requires Ready(Codec.C, v) && Ready(Python, v) && HasItem(v)
    ensures Enc(Codec.C, v) == Enc(Python, v) <==> SameInts(v)
  {
    var a, b := ItemOf(Codec.C, v), ItemOf(Python, v);
    EncIsItem(Codec.C, v);
    EncIsItem(Python, v);
    SameItems(v);
    if Enc(Codec.C, v) == Enc(Python, v) {
      Delimiting.ItemUnique(a, [], b, []);
    }
  }

  lemma SameIntItems(n: int)
    requires SizedInt(n)
    ensures IntItem(Codec.C, n) == IntItem(Python, n) <==> SameInt(n)
  {
    var m: nat := if n < 0 then -1 - n else n;
    SameBigBytes(m);
  }

  lemma SameBigBytes(m: nat)
    ensures BigBytes(Codec.C, m) == BigBytes(Python, m) <==> m < BIGNUM_LIMIT
  {
    BignumLimit();
    MinBELength(m, C_BIGNUM_BYTES);
    if m < BIGNUM_LIMIT {
      LowBytesAll(m, C_BIGNUM_BYTES);
    }
  }

  lemma {:induction false} SameItems(v: Value)
    requires Ready(Codec.C, v) && Ready(Python, v) && HasItem(v)
    ensures ItemOf(Codec.C, v) == ItemOf(Python, v) <==> SameInts(v)
    decreases v
  {
    match v
    case Int(n) => SameIntItems(n);
    case List(items, _) => SameItemsAll(items);
    case Dict(entries) => SameItemsEntries(entries);
    case Tag(_, item) => SameItems(item);
    case _ =>
  }

  lemma {:induction false} SameItemsAll(vs: seq<Value>)
    requires ReadyAll(Codec.C, vs) && ReadyAll(Python, vs) && forall i :: 0 <= i < |vs| ==> HasItem(vs[i])
    ensures ItemsOf(Codec.C, vs) == ItemsOf(Python, vs) <==> forall i :: 0 <= i < |vs| ==> SameInts(vs[i])
    decreases vs
  {
    if vs != [] {
      SameItems(vs[0]);
      SameItemsAll(vs[1..]);
      var a, b := ItemOf(Codec.C, vs[0]), ItemOf(Python, vs[0]);
      SameCons([a], ItemsOf(Codec.C, vs[1..]), [b], ItemsOf(Python, vs[1..]));
      assert forall i :: 0 <= i < |vs[1..]| ==> vs[1..][i] == vs[i + 1];
      assert forall i :: 1 <= i < |vs| ==> vs[i] == vs[1..][i - 1];
    }
  }

  lemma SameCons(x: seq<DataItem>, xs: seq<DataItem>, y: seq<DataItem>, ys: seq<DataItem>)
    requires |x| == |y|
    ensures x + xs == y + ys <==> x == y && xs == ys
  {
    if x + xs == y + ys {
      assert (x + xs)[..|x|] == x && (y + ys)[..|x|] == y;
      assert (x + xs)[|x|..] == xs && (y + ys)[|x|..] == ys;
    }
  }

  predicate SameIntsEntries(es: seq<Entry>) {
    forall i :: 0 <= i < |es| ==> SameIntsEntry(es[i])
  }

  lemma SameIntsCons(es: seq<Entry>)
    requires es != []
    ensures SameIntsEntries(es) <==> SameIntsEntry(es[0]) && SameIntsEntries(es[1..])
  {
    assert forall i :: 0 <= i < |es[1..]| ==> es[1..][i] == es[i + 1];
    assert forall i :: 1 <= i < |es| ==> es[i] == es[1..][i - 1];
  }

  lemma {:induction false} SameItemsEntries(es: seq<Entry>)
    requires ReadyEntries(Codec.C, es) && ReadyEntries(Python, es) && EntriesHaveItems(es)
    ensures ItemsOfEntries(Codec.C, es) == ItemsOfEntries(Python, es) <==> SameIntsEntries(es)
    decreases es
  {
    if es != [] {
      assert es decreases to es[0];
      var e := es[0];
      SameItems(e.key);
      SameItems(e.val);
      SameItemsEntries(es[1..]);
      var a, b := ItemsOfEntry(Codec.C, e), ItemsOfEntry(Python, e);
      assert a == b <==> a[0] == b[0] && a[1] == b[1];
      SameCons(a, ItemsOfEntries(Codec.C, es[1..]), b, ItemsOfEntries(Python, es[1..]));
      SameIntsCons(es);
    }
  }

  // ---------- Self-delimiting ----------

  /**
    No encoding starts another one, whichever encoders wrote them, unless they are of the
    same object up to tuples: `dumps` is injective and its outputs can be concatenated.
   */
  lemma SelfDelimiting(d: Codec, v: Value, r: seq<byte>, e: Codec, u: Value, s: seq<byte>)
    requires Ready(d, v) && HasItem(v) && Survives(d, Standard, v)
    requires Ready(e, u) && HasItem(u) && Survives(e, Standard, u)
    requires Enc(d, v) + r == Enc(e, u) + s
    ensures Norm(v) == Norm(u) && r == s
  {
    var a, b := ItemOf(d, v), ItemOf(e, u);
    EncIsItem(d, v);
    EncIsItem(e, u);
    Delimiting.ItemUnique(a, r, b, s);
    ItemRoundTrips(d, Standard, v);
    ItemRoundTrips(e, Standard, u);
  }

  // ---------- The two decoders ----------

  /**
    The two decoders on the bytes of any item, well-formed or not: where both succeed they
    stop at the same byte and return equal values, unless integers or tags of indefinite
    length are in it; and for each, what it takes of what the other takes.
   */
  lemma DecodersAgree(w: DataItem, rest: seq<byte>)
    requires Readable(w)
    ensures var c, py := C.Item(C.Buffer, Flatten(w) + rest), Py.Item(Flatten(w) + rest);
            && (c.Ok? && py.Got? ==> c.rest == rest && py.rest == rest)
            && (c.Ok? && py.Got? && Voidless(w) ==> c.value == py.value)
            && (c.Ok? && py.Got? && KeepsEntries(w) && c.value == py.value ==> Voidless(w))
            && (c.Ok? ==> (py.Got? <==> FitsPython(w)))
            && (py.Got? ==> (c.Ok? <==> FitsC(w)))
            && (py.Got? ==> py.count == |Flatten(w)| + PyCompleteness.Excess(w))
  {
    CSoundness.ItemVerdict(C.Buffer, w, rest);
    PyCompleteness.ReadItem(w, rest);
    PyCompleteness.CostLaw(w);
    DecodersCompare(w);
  }

  /** Of the well-formed items there are no others: the decoders agree on them. */
  lemma WellFormedAgree(w: DataItem, rest: seq<byte>)
    requires WellFormed(w)
    ensures var c, py := C.Item(C.Buffer, Flatten(w) + rest), Py.Item(Flatten(w) + rest);
            && (c.Ok? && py.Got? ==> c.value == py.value && c.rest == rest && py.rest == rest)
            && (c.Ok? ==> (py.Got? <==> NoLibraryTags(w)))
            && (py.Got? ==> (c.Ok? <==> FitsC(w)))
  {
    DecodersAgree(w, rest);
    WellFormedFits(w);
  }

  /** The C decoder over a stream and over bytes, on the bytes of any item. */
  lemma ReadersAgree(w: DataItem, rest: seq<byte>)
    requires Readable(w)
    ensures var o, b := C.Item(C.Object, Flatten(w) + rest), C.Item(C.Buffer, Flatten(w) + rest);
            && (o.Ok? ==> o == b && o.rest == rest)
            && (b.Ok? ==> (o.Ok? <==> NoEmptyChunk(w)))
  {
    CSoundness.ItemVerdict(C.Buffer, w, rest);
    CSoundness.ItemVerdict(C.Object, w, rest);
    ReadersCompare(w);
  }
}
