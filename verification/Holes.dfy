/**
  What the C encoder makes of tags that have no number.  It writes nothing for them, so that
  the bytes of an object with such a tag lack items at their end: they are not the bytes of
  any item, and neither decoder accepts them.
 */
module Holes {
  import opened Prelude
  import opened Values
  import opened Wire
  import opened Encoding
  import Delimiting
  import PyTruncation
  import Stability
  import C = CGrammar
  import CCompleteness
  import Py = PyGrammar

  // ---------- What an object consists of ----------

  predicate Node(v: Value) {
    v.List? || v.Dict? || v.Tag?
  }

  function Kids(v: Value): seq<Value>
    requires Node(v)
  {
    match v
    case List(items, _) => items
    case Dict(entries) => Flat(entries)
    case Tag(_, item) => [item]
  }

  function HeadOf(v: Value): seq<byte>
    requires Node(v) && Ready(Codec.C, v)
  {
    match v
    case List(items, _) => Head(ARRAY, |items|)
    case Dict(entries) => Head(MAP, |entries|)
    case Tag(num, _) => Head(TAG, num)
  }

  predicate AllHaveItems(vs: seq<Value>) {
    forall i :: 0 <= i < |vs| ==> HasItem(vs[i])
  }

  lemma FlatParts(es: seq<Entry>)
    requires es != []
    ensures Flat(es) != [] && Flat(es)[0] == es[0].key && Flat(es)[1..] == [es[0].val] + Flat(es[1..])
  {
  }

  lemma {:induction false} FlatNodes(es: seq<Entry>)
    ensures NodesAll(Flat(es)) == NodesEntries(es)
  {
    if es != [] {
      FlatNodes(es[1..]);
      FlatParts(es);
      assert ([es[0].val] + Flat(es[1..]))[1..] == Flat(es[1..]);
    }
  }

  lemma {:induction false} FlatEnc(es: seq<Entry>)
    requires ReadyEntries(Codec.C, es)
    ensures ReadyAll(Codec.C, Flat(es)) && EncAll(Codec.C, Flat(es)) == EncEntries(Codec.C, es)
  {
    if es != [] {
      FlatEnc(es[1..]);
      FlatParts(es);
      var vs := [es[0].val] + Flat(es[1..]);
      assert vs[1..] == Flat(es[1..]);
      assert Flat(es) == [es[0].key] + vs;
    }
  }

  lemma {:induction false} FlatItems(es: seq<Entry>)
    ensures EntriesHaveItems(es) <==> AllHaveItems(Flat(es))
  {
    if es != [] {
      FlatItems(es[1..]);
      FlatParts(es);
      HaveItemsCons(Flat(es));
      HaveItemsCons([es[0].val] + Flat(es[1..]));
      assert ([es[0].val] + Flat(es[1..]))[1..] == Flat(es[1..]);
      assert forall i :: 1 <= i < |es| ==> es[i] == es[1..][i - 1];
      assert forall i :: 0 <= i < |es| - 1 ==> es[1..][i] == es[i + 1];
    }
  }

  lemma HaveItemsCons(vs: seq<Value>)
    requires vs != []
    ensures AllHaveItems(vs) <==> HasItem(vs[0]) && AllHaveItems(vs[1..])
  {
    assert forall i :: 1 <= i < |vs| ==> vs[i] == vs[1..][i - 1];
    assert forall i :: 0 <= i < |vs| - 1 ==> vs[1..][i] == vs[i + 1];
  }

  /** An object with parts is its head and then its parts. */
  lemma NodeParts(v: Value)
    requires Node(v)
    ensures Nodes(v) == 1 + NodesAll(Kids(v)) && (HasItem(v) <==> AllHaveItems(Kids(v)))
    ensures Ready(Codec.C, v) ==>
              ReadyAll(Codec.C, Kids(v)) && Enc(Codec.C, v) == HeadOf(v) + EncAll(Codec.C, Kids(v))
  {
    NodeSize(v);
    NodeItems(v);
    if Ready(Codec.C, v) {
      NodeBytes(v);
    }
  }

  lemma NodeSize(v: Value)
    requires Node(v)
    ensures Nodes(v) == 1 + NodesAll(Kids(v))
  {
    if v.Dict? {
      FlatNodes(v.entries);
    } else if v.Tag? {
      assert [v.item][1..] == [];
    }
  }

  lemma NodeItems(v: Value)
    requires Node(v)
    ensures HasItem(v) <==> AllHaveItems(Kids(v))
  {
    if v.Dict? {
      FlatItems(v.entries);
    } else if v.Tag? {
      assert Kids(v)[0] == v.item;
    }
  }

  lemma NodeBytes(v: Value)
    requires Node(v) && Ready(Codec.C, v)
    ensures ReadyAll(Codec.C, Kids(v)) && Enc(Codec.C, v) == HeadOf(v) + EncAll(Codec.C, Kids(v))
  {
    if v.Dict? {
      assert ReadyEntries(Codec.C, v.entries);
      FlatEnc(v.entries);
    } else if v.Tag? {
      assert [v.item][1..] == [];
    }
  }

  // ---------- How many items are missing ----------

  function Missing(v: Value): nat
    decreases Nodes(v), 0
  {
    if v.BareTag? then 1
    else if Node(v) then
      NodeParts(v);
      MissingAll(Kids(v))
    else 0
  }

  function MissingAll(vs: seq<Value>): nat
    decreases NodesAll(vs), 1
  {
    if vs == [] then 0 else Missing(vs[0]) + MissingAll(vs[1..])
  }

  lemma {:induction false} NothingMissing(v: Value)
    ensures Missing(v) == 0 <==> HasItem(v)
    decreases Nodes(v), 0
  {
    if Node(v) {
      NodeParts(v);
      NothingMissingAll(Kids(v));
    }
  }

  lemma {:induction false} NothingMissingAll(vs: seq<Value>)
    ensures MissingAll(vs) == 0 <==> AllHaveItems(vs)
    decreases NodesAll(vs), 1
  {
    if vs != [] {
      NothingMissing(vs[0]);
      NothingMissingAll(vs[1..]);
      HaveItemsCons(vs);
    }
  }

  // ---------- Items put behind ----------

  lemma {:induction false} FlattenSplit(ws: seq<DataItem>, k: nat)
    requires ReadableAll(ws) && k <= |ws|
    ensures FlattenAll(ws) == FlattenAll(ws[..k]) + FlattenAll(ws[k..])
  {
    if k == 0 {
      assert ws[..0] == [] && ws[0..] == ws;
    } else {
      FlattenSplit(ws[1..], k - 1);
      assert ws[..k][1..] == ws[1..][..k - 1] && ws[k..] == ws[1..][k - 1..];
    }
  }

  lemma {:induction false} TrailingSplit(ws: seq<DataItem>, k: nat)
    requires k <= |ws|
    ensures PyTruncation.TrailingAll(ws) == PyTruncation.TrailingAll(if k < |ws| then ws[k..] else ws[..k])
  {
    if k < |ws| && k > 0 {
      TrailingSplit(ws[1..], k - 1);
      assert ws[k..] == ws[1..][k - 1..];
    } else if k == 0 && ws != [] {
      assert ws[0..] == ws;
    } else {
      assert ws[..k] == ws;
    }
  }

  /** Items `as_` that take the place of an object, or of some, and the items behind. */
  ghost predicate Fills(as_: seq<DataItem>, s: seq<byte>, n: int, ws: seq<DataItem>)
    requires ReadableAll(ws)
  {
    && ReadableAll(as_) && |as_| == n && s + FlattenAll(ws) == FlattenAll(as_)
    && (PyTruncation.TrailingAll(ws) == 0 && ws != [] ==> PyTruncation.TrailingAll(as_) == 0)
  }

  /** The item of an object whose parts are `ws`. */
  function Close(v: Value, ws: seq<DataItem>): (w: DataItem)
    requires Node(v) && Ready(Codec.C, v) && |ws| == |Kids(v)|
  {
    match v
    case List(items, _) => WGroup(false, Shortest(|items|), ws)
    case Dict(entries) => WGroup(true, Shortest(|entries|), ws)
    case Tag(num, _) => WTag(Shortest(num), num, ws[0])
  }

  lemma ClosedBytes(v: Value, ws: seq<DataItem>)
    requires Node(v) && Ready(Codec.C, v) && |ws| == |Kids(v)| && ReadableAll(ws)
    ensures Readable(Close(v, ws)) && Flatten(Close(v, ws)) == HeadOf(v) + FlattenAll(ws)
    ensures PyTruncation.Trailing(Close(v, ws)) == PyTruncation.TrailingAll(ws)
  {
    match v
    case List(items, _) => FlattenGroup(false, |items|, ws);
    case Dict(entries) => FlattenGroup(true, |entries|, ws);
    case Tag(num, _) =>
      FlattenTag(Shortest(num), num, ws[0]);
      assert ws == [ws[0]] + [];
      FlattenAllCons(ws[0], []);
  }

  /** What the C encoder writes is completed by as many items as it has missed. */
  lemma {:induction false} Padded(v: Value, ws: seq<DataItem>) returns (as_: seq<DataItem>)
    requires Ready(Codec.C, v) && ReadableAll(ws) && |ws| >= Missing(v)
    ensures Fills(as_, Enc(Codec.C, v), 1 + |ws| - Missing(v), ws)
    decreases Nodes(v), 0
  {
    if v.BareTag? {
      as_ := ws;
    } else if Node(v) {
      NodeParts(v);
      var bs := PaddedAll(Kids(v), ws);
      as_ := Closed(v, bs, ws);
    } else {
      var w := ItemOf(Codec.C, v);
      EncIsItem(Codec.C, v);
      FlattenAllCons(w, ws);
      as_ := [w] + ws;
    }
  }

  lemma Closed(v: Value, bs: seq<DataItem>, ws: seq<DataItem>) returns (as_: seq<DataItem>)
    requires Node(v) && Ready(Codec.C, v) && ReadyAll(Codec.C, Kids(v)) && ReadableAll(ws)
    requires |ws| >= Missing(v) && Missing(v) == MissingAll(Kids(v))
    requires Enc(Codec.C, v) == HeadOf(v) + EncAll(Codec.C, Kids(v))
    requires Fills(bs, EncAll(Codec.C, Kids(v)), |Kids(v)| + |ws| - Missing(v), ws)
    ensures Fills(as_, Enc(Codec.C, v), 1 + |ws| - Missing(v), ws)
  {
    var k := |Kids(v)|;
    var first, others := bs[..k], bs[k..];
    var w := Close(v, first);
    ClosedBytes(v, first);
    FlattenSplit(bs, k);
    TrailingSplit(bs, k);
    FlattenAllCons(w, others);
    as_ := [w] + others;
    TrailingSplit(as_, 1);
    assert as_[1..] == others && as_[..1] == [w];
    Assoc(HeadOf(v), EncAll(Codec.C, Kids(v)), FlattenAll(ws));
    Assoc(HeadOf(v), FlattenAll(first), FlattenAll(others));
  }

  lemma {:induction false} PaddedAll(vs: seq<Value>, ws: seq<DataItem>) returns (as_: seq<DataItem>)
    requires ReadyAll(Codec.C, vs) && ReadableAll(ws) && |ws| >= MissingAll(vs)
    ensures Fills(as_, EncAll(Codec.C, vs), |vs| + |ws| - MissingAll(vs), ws)
    decreases NodesAll(vs), 1
  {
    if vs == [] {
      as_ := ws;
    } else {
      var bs := PaddedAll(vs[1..], ws);
      as_ := Padded(vs[0], bs);
      Assoc(Enc(Codec.C, vs[0]), EncAll(Codec.C, vs[1..]), FlattenAll(ws));
    }
  }

  // ---------- The bytes of no item ----------

  function Nulls(k: nat): (ws: seq<DataItem>)
    ensures |ws| == k && ReadableAll(ws) && PyTruncation.TrailingAll(ws) == 0
    ensures k > 0 ==> FlattenAll(ws) != []
  {
    if k == 0 then [] else [WSimple(Imm, 22)] + Nulls(k - 1)
  }

  /** With nulls behind them they are those of one item. */
  lemma CompletedByNulls(v: Value) returns (w: DataItem, q: seq<byte>)
    requires Ready(Codec.C, v) && !HasItem(v)
    ensures Readable(w) && Flatten(w) == Enc(Codec.C, v) + q && q != [] && PyTruncation.Trailing(w) == 0
  {
    NothingMissing(v);
    var ws := Nulls(Missing(v));
    var as_ := Padded(v, ws);
    w, q := as_[0], FlattenAll(ws);
    assert as_ == [w] + [];
    FlattenAllCons(w, []);
  }

  /** No item starts what the C encoder writes for a tag without a number, or for an object around one. */
  lemma NoItem(v: Value, w: DataItem, rest: seq<byte>)
    requires Ready(Codec.C, v) && !HasItem(v) && Readable(w)
    ensures Enc(Codec.C, v) != Flatten(w) + rest
  {
    var u, q := CompletedByNulls(v);
    if Enc(Codec.C, v) == Flatten(w) + rest {
      NotCompleted(w, rest, u, q);
    }
  }

  /** An item that starts another one is that one. */
  lemma NotCompleted(w: DataItem, rest: seq<byte>, u: DataItem, q: seq<byte>)
    requires Readable(w) && Readable(u) && q != []
    ensures Flatten(u) != Flatten(w) + rest + q
  {
    if Flatten(u) == Flatten(w) + rest + q {
      Assoc(Flatten(w), rest, q);
      assert Flatten(u) + [] == Flatten(u);
      Delimiting.ItemUnique(w, rest + q, u, []);
    }
  }

  /** Nor does the C decoder accept any part of it from the start, or the Python decoder all of it. */
  lemma NotAccepted(v: Value, m: C.Mode, k: nat)
    requires Ready(Codec.C, v) && !HasItem(v) && k <= |Enc(Codec.C, v)|
    ensures !C.Item(m, Enc(Codec.C, v)[..k]).Ok? && !Py.Item(Enc(Codec.C, v)).Got?
  {
    var w, q := CompletedByNulls(v);
    assert Enc(Codec.C, v)[..k] == Flatten(w)[..k];
    Stability.PrefixRejected(m, w, k);
    PyTruncation.CutItem(w, Enc(Codec.C, v), q);
  }

  // ---------- A stream that ends behind an object ----------

  /** Nothing is left over but what was written for some objects, of no more than `n` nodes. */
  predicate Stops<T>(r: C.Parsed<T>, us: seq<Value>, n: nat) {
    && !r.Stall? && ReadyAll(Codec.C, us)
    && (r.Ok? ==> r.rest == EncAll(Codec.C, us) && NodesAll(us) <= n)
  }

  lemma EncCons(v: Value, vs: seq<Value>)
    requires Ready(Codec.C, v) && ReadyAll(Codec.C, vs)
    ensures ReadyAll(Codec.C, [v] + vs) && EncAll(Codec.C, [v] + vs) == Enc(Codec.C, v) + EncAll(Codec.C, vs)
    ensures NodesAll([v] + vs) == Nodes(v) + NodesAll(vs)
  {
    assert ([v] + vs)[1..] == vs;
  }

  lemma {:induction false} EncConcat(us: seq<Value>, vs: seq<Value>)
    requires ReadyAll(Codec.C, us) && ReadyAll(Codec.C, vs)
    ensures ReadyAll(Codec.C, us + vs) && EncAll(Codec.C, us + vs) == EncAll(Codec.C, us) + EncAll(Codec.C, vs)
    ensures NodesAll(us + vs) == NodesAll(us) + NodesAll(vs)
  {
    if us == [] {
      assert us + vs == vs;
    } else {
      EncConcat(us[1..], vs);
      EncCons(us[0], us[1..] + vs);
      assert us + vs == [us[0]] + (us[1..] + vs);
      Assoc(Enc(Codec.C, us[0]), EncAll(Codec.C, us[1..]), EncAll(Codec.C, vs));
    }
  }

  /** Items read from what was written for some objects. */
  lemma {:induction false} RowStops(m: C.Mode, vs: seq<Value>, n: nat) returns (us: seq<Value>)
    requires ReadyAll(Codec.C, vs)
    ensures Stops(C.Items(m, EncAll(Codec.C, vs), n), us, NodesAll(vs))
    decreases NodesAll(vs), 3, n
  {
    us := vs;
    if n > 0 {
      us := ItemStops(m, vs);
      var r := C.Item(m, EncAll(Codec.C, vs));
      if r.Ok? {
        var ts := us;
        us := RowStops(m, ts, n - 1);
        RowStep(m, EncAll(Codec.C, vs), n, EncAll(Codec.C, ts));
      } else {
        C.ItemsStep(m, EncAll(Codec.C, vs), n);
      }
    }
  }

  lemma RowStep(m: C.Mode, s: seq<byte>, n: nat, t: seq<byte>)
    requires n > 0 && C.Item(m, s).Ok? && C.Item(m, s).rest == t
    ensures var r, more := C.Items(m, s, n), C.Items(m, t, n - 1);
            (r.Stall? <==> more.Stall?) && (r.Ok? <==> more.Ok?) && (r.Ok? ==> r.rest == more.rest)
  {
    C.ItemsStep(m, s, n);
  }

  /** One item, which takes one object at least. */
  lemma {:induction false} ItemStops(m: C.Mode, vs: seq<Value>) returns (us: seq<Value>)
    requires ReadyAll(Codec.C, vs)
    ensures Stops(C.Item(m, EncAll(Codec.C, vs)), us, if vs == [] then 0 else NodesAll(vs) - 1)
    decreases NodesAll(vs), 2, 0
  {
    us := [];
    if vs != [] {
      var v, others := vs[0], vs[1..];
      assert EncAll(Codec.C, vs) == Enc(Codec.C, v) + EncAll(Codec.C, others);
      if v.BareTag? {
        assert EncAll(Codec.C, vs) == EncAll(Codec.C, others);
        us := ItemStops(m, others);
      } else if Node(v) {
        us := NodeStops(m, v, others);
      } else {
        us := others;
        LeafStops(m, v, others);
      }
    }
  }

  lemma LeafStops(m: C.Mode, v: Value, others: seq<Value>)
    requires Ready(Codec.C, v) && ReadyAll(Codec.C, others) && !v.BareTag? && !Node(v)
    ensures Stops(C.Item(m, Enc(Codec.C, v) + EncAll(Codec.C, others)), others, NodesAll(others))
  {
    var w := LeafItem(v);
    LeafRead(m, w, others);
  }

  lemma LeafItem(v: Value) returns (w: DataItem)
    requires Ready(Codec.C, v) && !v.BareTag? && !Node(v)
    ensures Readable(w) && Countable(w) && Enc(Codec.C, v) == Flatten(w)
  {
    w := ItemOf(Codec.C, v);
    EncIsItem(Codec.C, v);
  }

  lemma LeafRead(m: C.Mode, w: DataItem, others: seq<Value>)
    requires Readable(w) && Countable(w) && ReadyAll(Codec.C, others)
    ensures Stops(C.Item(m, Flatten(w) + EncAll(Codec.C, others)), others, NodesAll(others))
  {
    CCompleteness.ReadItem(m, w, EncAll(Codec.C, others));
  }

  lemma {:induction false} NodeStops(m: C.Mode, v: Value, others: seq<Value>) returns (us: seq<Value>)
    requires Ready(Codec.C, v) && ReadyAll(Codec.C, others) && Node(v)
    ensures Stops(C.Item(m, Enc(Codec.C, v) + EncAll(Codec.C, others)), us, NodesAll(Kids(v) + others))
    ensures NodesAll(Kids(v) + others) < Nodes(v) + NodesAll(others)
    decreases Nodes(v) + NodesAll(others), 1, 0
  {
    NodeParts(v);
    EncConcat(Kids(v), others);
    var vs := Kids(v) + others;
    var tail := EncAll(Codec.C, vs);
    Assoc(HeadOf(v), EncAll(Codec.C, Kids(v)), EncAll(Codec.C, others));
    if v.Tag? {
      CCompleteness.ReadHead(m, TAG, Shortest(v.num), v.num, tail);
      C.BodyOfTag(m, Info(Shortest(v.num), v.num), v.num, tail);
      if v.num == TAG_BIGNUM || v.num == TAG_NEGBIGNUM {
        us := BignumStops(v.num, vs);
      } else {
        us := ItemStops(m, vs);
      }
    } else {
      us := GroupStops(m, v, vs);
    }
  }

  lemma {:induction false} GroupStops(m: C.Mode, v: Value, vs: seq<Value>) returns (us: seq<Value>)
    requires Ready(Codec.C, v) && (v.List? || v.Dict?) && ReadyAll(Codec.C, vs)
    ensures Stops(C.Item(m, HeadOf(v) + EncAll(Codec.C, vs)), us, NodesAll(vs))
    decreases NodesAll(vs), 4, 0
  {
    var tail, n := EncAll(Codec.C, vs), if v.List? then |v.items| else |v.entries|;
    CCompleteness.ReadHead(m, GroupType(v.Dict?), Shortest(n), n, tail);
    C.BodyOfGroup(m, v.Dict?, Info(Shortest(n), n), n, tail);
    us := RowStops(m, vs, if v.Dict? then 2 * C.Rounds(n, tail) else C.Rounds(n, tail));
  }

  /** The payload of a bignum is looked for in the next object that was written. */
  lemma {:induction false} BignumStops(num: nat, vs: seq<Value>) returns (us: seq<Value>)
    requires ReadyAll(Codec.C, vs) && (num == TAG_BIGNUM || num == TAG_NEGBIGNUM)
    ensures Stops(C.BignumItem(num, EncAll(Codec.C, vs)), us, NodesAll(vs))
    decreases |vs|
  {
    us := [];
    if vs != [] {
      var v, others := vs[0], vs[1..];
      if v.BareTag? {
        us := BignumStops(num, others);
      } else if Node(v) {
        NodeIsNoPayload(num, v, EncAll(Codec.C, others));
      } else {
        us := others;
        var w := LeafItem(v);
        PayloadStops(num, w, others);
      }
    }
  }

  lemma NodeIsNoPayload(num: nat, v: Value, s: seq<byte>)
    requires Ready(Codec.C, v) && Node(v)
    ensures C.BignumItem(num, Enc(Codec.C, v) + s) == C.Fail
  {
    NodeParts(v);
    assert (Enc(Codec.C, v) + s)[0] == HeadOf(v)[0];
  }

  lemma PayloadStops(num: nat, w: DataItem, others: seq<Value>)
    requires Readable(w) && ReadyAll(Codec.C, others) && (num == TAG_BIGNUM || num == TAG_NEGBIGNUM)
    ensures Stops(C.BignumItem(num, Flatten(w) + EncAll(Codec.C, others)), others, NodesAll(others))
  {
    CCompleteness.ReadBignum(C.Buffer, num, w, EncAll(Codec.C, others));
  }

  /**
    The C decoder fails on all of it: it reads whole items until nothing is left, so that
    it is never in the middle of a block when a stream ends.
   */
  lemma LostToC(v: Value, m: C.Mode)
    requires Ready(Codec.C, v) && !HasItem(v)
    ensures C.Item(m, Enc(Codec.C, v)) == C.Fail
  {
    NotAccepted(v, m, |Enc(Codec.C, v)|);
    assert Enc(Codec.C, v)[..|Enc(Codec.C, v)|] == Enc(Codec.C, v);
    EncCons(v, []);
    assert [v] + [] == [v];
    assert EncAll(Codec.C, [v]) == Enc(Codec.C, v) + [] == Enc(Codec.C, v);
    var us := ItemStops(m, [v]);
  }
}
