/**
  The entry points `loads` and `load`, and streams of many items.
 */
module Loading {
  import opened Prelude
  import opened Values
  import opened Wire
  import opened CGrammar
  import opened CReaders
  import CDecoder
  import CCompleteness
  import Py = PyGrammar
  import PyCompleteness
  import Encoding
  import RoundTrip
  import Stability

  /** What `load` does: a value, an end-of-file error, another error, or no return at all. */
  datatype Loaded = Loaded(value: Value) | EndOfFile | Error | Endless | External

  method CborLoads(raw: seq<byte>) returns (r: Option<Value>)
    ensures var spec := Item(Buffer, raw);
            r == if spec.Ok? then Some(spec.value) else None
  {
    if |raw| == 0 {
      return None;  // got zero length string in loads
    }
    var b := new BufferReader(raw);
    var reader := new Reader(OverBuffer(b));
    var v := CDecoder.InnerLoads(reader);
    Settles(reader);
    Stability.BufferNeverStalls(raw);
    return if v.Done? then Some(v.value) else None;
  }

  lemma Settles(rd: Reader)
    requires rd.Valid() && rd.via.OverBuffer?
    ensures !rd.raised
  {
    assert Unsealed(0);
  }

  /** What one call of `load` makes of the bytes `s` that a stream still has. */
  function LoadOnce(s: seq<byte>): Loaded {
    match Item(Object, s)
    case Ok(v, _) => Loaded(v)
    case Fail => if s == [] then EndOfFile else Error
    case Stall => Endless
  }

  /**
    One call of `load`.  It takes from the stream exactly the bytes of one item, and the
    end-of-file error is raised exactly when the stream had nothing to give.
   */
  method CborLoad(ob: Stream) returns (r: Loaded, readCount: nat)
    requires ob.Valid()
    modifies ob
    ensures ob.Valid() && ob.pos == old(ob.pos) + readCount
    ensures r.External? ==> ob.fault.Some?
    ensures !r.External? ==> r == LoadOnce(old(ob.Left()))
    ensures !r.External? ==> (r == EndOfFile <==> old(ob.Left()) == [])
    ensures r.Loaded? ==> ob.Left() == Item(Object, old(ob.Left())).rest
  {
    ghost var s := ob.Left();
    var o := new ObjectReader(ob);
    var reader := new Reader(OverObject(o));
    var retval := CDecoder.InnerLoads(reader);
    Accounts(reader, o);
    readCount := o.readCount;
    if retval.Done? {
      r := Loaded(retval.value);
    } else if retval.Hung? {
      r := Endless;
    } else if !o.external && readCount == 0 {
      r := EndOfFile;  // never got anything
    } else {
      r := if o.external then External else Error;
    }
  }

  /** `read_count` and the exception flag of the reader that was used. */
  lemma Accounts(rd: Reader, o: ObjectReader)
    requires rd.Valid() && rd.via == OverObject(o)
    ensures o.Valid() && rd.left == o.ob.Left() && (rd.raised <==> o.external)
  {
    assert Unsealed(0);
  }

  // ---------- Streams of items ----------

  /** Calls of `load` until one of them gives no value. */
  function LoadEach(s: seq<byte>): (seq<Value>, Loaded)
    decreases |s|
  {
    match Item(Object, s)
    case Ok(v, rest) =>
      var more := LoadEach(rest);
      ([v] + more.0, more.1)
    case _ => ([], LoadOnce(s))
  }

  /** Over any sequence of items that mean something: their values in order, then end of file. */
  lemma {:induction false} LoadsItems(ws: seq<DataItem>)
    requires ReadableAll(ws) && MeaningAll(FromObject, ws).Some?
    ensures LoadEach(FlattenAll(ws)) == (MeaningAll(FromObject, ws).value, EndOfFile)
    decreases ws
  {
    if ws != [] {
      CCompleteness.ReadItem(Object, ws[0], FlattenAll(ws[1..]));
      LoadsItems(ws[1..]);
    }
  }

  /**
    Over the encodings of any objects that survive, by either encoder: the objects in
    order, then end of file.
   */
  lemma LoadsStream(d: Codec, vs: seq<Value>)
    requires Encoding.ReadyAll(d, vs) && (forall i :: 0 <= i < |vs| ==> Encoding.HasItem(vs[i]))
    requires RoundTrip.SurvivesAll(d, FromObject, vs)
    ensures LoadEach(Encoding.EncAll(d, vs)) == (NormAll(vs), EndOfFile)
  {
    Encoding.EncAllIsItems(d, vs);
    RoundTrip.AllRoundTrip(d, FromObject, vs);
    LoadsItems(Encoding.ItemsOf(d, vs));
  }

  /** Calls of the Python `load` until one gives no value; what is then left of the file. */
  function PyLoadEach(s: seq<byte>): (seq<Value>, seq<byte>)
    decreases |s|
  {
    match Py.Item(s)
    case Got(v, rest, _) =>
      var more := PyLoadEach(rest);
      ([v] + more.0, more.1)
    case _ => ([], s)
  }

  /** The same with the Python decoder, which raises only once nothing is left. */
  lemma {:induction false} PyLoadsItems(ws: seq<DataItem>)
    requires ReadableAll(ws) && MeaningAll(FromPython, ws).Some?
    ensures PyLoadEach(FlattenAll(ws)) == (MeaningAll(FromPython, ws).value, [])
    decreases ws
  {
    if ws != [] {
      PyCompleteness.ReadItem(ws[0], FlattenAll(ws[1..]));
      PyLoadsItems(ws[1..]);
    }
  }

  lemma PyLoadsStream(d: Codec, vs: seq<Value>)
    requires Encoding.ReadyAll(d, vs) && (forall i :: 0 <= i < |vs| ==> Encoding.HasItem(vs[i]))
    requires RoundTrip.SurvivesAll(d, FromPython, vs)
    ensures PyLoadEach(Encoding.EncAll(d, vs)) == (NormAll(vs), [])
  {
    Encoding.EncAllIsItems(d, vs);
    RoundTrip.AllRoundTrip(d, FromPython, vs);
    PyLoadsItems(Encoding.ItemsOf(d, vs));
  }
}
