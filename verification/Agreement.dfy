/**
  The two decoders against each other on arbitrary bytes: what each of them accepts of what
  the other accepts, and where the values that they return are equal.  The Python decoder
  accepts what it returns an object of this model for; library objects are not among them.
 */
module Agreement {
  import opened Prelude
  import opened Values
  import opened Wire
  import opened Readings
  import C = CGrammar
  import CCompleteness
  import CSoundness
  import Py = PyGrammar
  import PyCompleteness
  import PySoundness
  import PyTruncation
  import Interop
  import Stability
  import Transport

  /** `w` is the item at the start of `s`. */
  ghost predicate Starts(w: DataItem, s: seq<byte>, rest: seq<byte>) {
    Readable(w) && s == Flatten(w) + rest
  }

  /** Of what the C decoder accepts, the Python decoder accepts what is within its limits. */
  lemma AcceptedByC(s: seq<byte>) returns (w: DataItem)
    requires C.Item(C.Buffer, s).Ok?
    ensures Starts(w, s, C.Item(C.Buffer, s).rest) && (Py.Item(s).Got? <==> FitsPython(w))
  {
    w := CSoundness.ReadsItem(C.Buffer, s);
    Interop.DecodersAgree(w, C.Item(C.Buffer, s).rest);
  }

  /**
    Of what the Python decoder accepts, the C decoder accepts what is complete and within
    its limits.
   */
  lemma AcceptedByPython(s: seq<byte>) returns (w: DataItem, q: seq<byte>)
    requires Py.Item(s).Got?
    ensures PySoundness.Shows(w, q, s, Py.Item(s).rest)
    ensures C.Item(C.Buffer, s).Ok? <==> q == [] && FitsC(w)
  {
    w, q := PySoundness.ExplainsItem(s);
    var rest := Py.Item(s).rest;
    if q == [] {
      assert s + q == s;
      Interop.DecodersAgree(w, rest);
    } else {
      assert Flatten(w) + rest == Flatten(w) && Flatten(w)[..|s|] == s;
      Stability.PrefixRejected(C.Buffer, w, |s|);
    }
  }

  /**
    Arbitrary bytes that both decoders accept are an item, behind which both stop.  Each
    returns what the item means to it; these are equal where no integer and no tag in it has
    an indefinite length, and, where no dict value is overwritten, only there.
   */
  lemma BothAccept(m: C.Mode, s: seq<byte>) returns (w: DataItem)
    requires C.Item(m, s).Ok? && Py.Item(s).Got?
    ensures var c, py := C.Item(m, s), Py.Item(s);
            && c.rest == py.rest && Starts(w, s, py.rest)
            && py.count == |Flatten(w)| + PyCompleteness.Excess(w)
            && Meaning(CCompleteness.ReadingOf(m), w) == Some(c.value)
            && Meaning(FromPython, w) == Some(py.value)
            && (Voidless(w) ==> c.value == py.value)
            && (KeepsEntries(w) && c.value == py.value ==> Voidless(w))
  {
    Transport.ItemRefines(s);
    assert C.Item(C.Buffer, s) == C.Item(m, s);
    var q;
    w, q := AcceptedByPython(s);
    assert s + q == s;
    var rest := Py.Item(s).rest;
    Interop.DecodersAgree(w, rest);
    CSoundness.ItemVerdict(m, w, rest);
    PyCompleteness.ReadItem(w, rest);
  }

  // ---------- The difference ----------

  const VOID: Width := Reserved(VAR_FOLLOWS)

  /** An integer of indefinite length is 0 in C and None in Python. */
  lemma VoidInteger(m: C.Mode, rest: seq<byte>)
    ensures C.Item(m, [0x1F] + rest) == C.Ok(Int(0), rest)
    ensures Py.Item([0x1F] + rest) == Py.Got(Null, rest, 1)
  {
    var w := WInt(false, VOID, 0);
    PyCompleteness.VoidHead(UINT, 0);
    assert Flatten(w) == [0x1F];
    CCompleteness.ReadItem(m, w, rest);
    PyCompleteness.ReadItem(w, rest);
  }

  /** A tag of indefinite length has the number 0 in C and the number None in Python. */
  lemma VoidTag(m: C.Mode, w: DataItem, rest: seq<byte>)
    requires Readable(w)
    ensures var c, v := C.Item(m, [0xDF] + (Flatten(w) + rest)), Meaning(CCompleteness.ReadingOf(m), w);
            v.Some? ==> c == C.Ok(Tag(0, v.value), rest)
    ensures var py, v := Py.Item([0xDF] + (Flatten(w) + rest)), Meaning(FromPython, w);
            v.Some? ==> py.Got? && py.value == BareTag(v.value) && py.rest == rest
  {
    var t := WTag(VOID, 0, w);
    PyCompleteness.VoidHead(TAG, 0);
    TagBytes(t, rest);
    CCompleteness.ReadItem(m, t, rest);
    PyCompleteness.ReadItem(t, rest);
  }

  /** A map whose first value is void, and overwritten: the decoders return equal dicts. */
  lemma OverwrittenVoid()
    ensures var zero := WInt(false, Imm, 0);
            var w := WGroup(true, Imm, [zero, WInt(false, VOID, 0), zero, zero]);
            && Readable(w) && !Voidless(w) && !KeepsEntries(w)
            && Meaning(FromBuffer, w) == Meaning(FromPython, w) == Some(Dict([Entry(Int(0), Int(0))]))
  {
    var zero, void := WInt(false, Imm, 0), WInt(false, VOID, 0);
    var items := [zero, void, zero, zero];
    var w := WGroup(true, Imm, items);
    assert items[1] == void && !Voidless(void);
    Four(FromBuffer, zero, void, zero, zero, Int(0), Int(0), Int(0), Int(0));
    Four(FromPython, zero, void, zero, zero, Int(0), Null, Int(0), Int(0));
    TwoEntries(Int(0), Int(0));
    TwoEntries(Int(0), Null);
  }

  lemma One(p: Reading, w: DataItem, ws: seq<DataItem>, all: seq<DataItem>, v: Value, vs: seq<Value>)
    requires all == [w] + ws && Meaning(p, w) == Some(v) && MeaningAll(p, ws) == Some(vs)
    ensures MeaningAll(p, all) == Some([v] + vs)
  {
    MeaningCons(p, w, ws);
  }

  lemma Four(p: Reading, a: DataItem, b: DataItem, c: DataItem, d: DataItem,
             t: Value, u: Value, v: Value, x: Value)
    requires Meaning(p, a) == Some(t) && Meaning(p, b) == Some(u) && Meaning(p, c) == Some(v) && Meaning(p, d) == Some(x)
    ensures MeaningAll(p, [a, b, c, d]) == Some([t, u, v, x])
  {
    Two(p, c, d, [], v, x, []);
    Two(p, a, b, [c, d] + [], t, u, [v, x] + []);
    assert [a, b] + ([c, d] + []) == [a, b, c, d] && [t, u] + ([v, x] + []) == [t, u, v, x];
  }

  lemma Two(p: Reading, a: DataItem, b: DataItem, ws: seq<DataItem>, t: Value, u: Value, vs: seq<Value>)
    requires Meaning(p, a) == Some(t) && Meaning(p, b) == Some(u) && MeaningAll(p, ws) == Some(vs)
    ensures MeaningAll(p, [a, b] + ws) == Some([t, u] + vs)
  {
    One(p, b, ws, [b] + ws, u, vs);
    One(p, a, [b] + ws, [a, b] + ws, t, [u] + vs);
    assert [t] + ([u] + vs) == [t, u] + vs;
  }

  lemma TwoEntries(k: Value, v: Value)
    requires k == Int(0)
    ensures Build([k, v, k, Int(0)]) == Some([Entry(k, Int(0))])
  {
    var one := [Entry(k, v)];
    assert Build([k, v]) == Some(one) by {
      BuildSnoc([], k, v);
      PutFresh([], k, v);
      assert [k, v] == [] + [k, v] && one == [] + one;
    }
    assert Put(one, k, Int(0)) == [Entry(k, Int(0))] by {
      assert KeyEq(one[0].key, k);
      assert FindKey(one, k) == 0;
    }
    BuildSnoc([k, v], k, Int(0));
    assert [k, v, k, Int(0)] == [k, v] + [k, Int(0)];
  }
}
