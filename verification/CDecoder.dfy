/**
  The C decoder: recursive descent over a reader, proved to compute the functions of
  `CGrammar` whatever the reader and however its bytes arrive.
 */
module CDecoder {
  import opened Prelude
  import opened BigEndian
  import opened Values
  import opened Floats
  import opened Wire
  import opened CGrammar
  import opened CReaders
  import Bits
  import Utf8

  /** Two calls of `read1`. */
  method ReadPair(rd: Reader) returns (r: Reply<(byte, byte)>)
    requires rd.Ready()
    modifies rd.repr
    ensures |rd.left| <= |old(rd.left)|
    ensures Serves(rd, r, Pair(old(rd.left)))
  {
    var hi := rd.Read1();
    if !hi.Done? { return Fault(hi); }
    var lo := rd.Read1();
    if !lo.Done? { return Fault(lo); }
    return Done((hi.value, lo.value));
  }

  ghost function Pair(s: seq<byte>): Parsed<(byte, byte)> {
    if |s| < 2 then Fail else Ok((s[0], s[1]), s[2..])
  }

  /** A big-endian number in the next `k` bytes: `aux = aux << 8 | raw[si]`. */
  method ReadBlock(rd: Reader, k: nat) returns (r: Reply<nat>)
    requires rd.Ready() && (k == 4 || k == 8)
    modifies rd.repr
    ensures |rd.left| <= |old(rd.left)|
    ensures Serves(rd, r, Block(rd.mode, old(rd.left), k))
  {
    var loan := rd.Read(k);
    if !loan.Done? { return Fault(loan); }
    var raw := Contents(loan.value);
    var aux: nat := 0;
    for si := 0 to k
      invariant aux == FromBE(raw[..si])
    {
      assert raw[..si + 1][..si] == raw[..si];
      aux := aux * 256 + raw[si];
    }
    assert raw[..k] == raw;
    rd.ReturnBuffer(loan.value);
    return Done(aux);
  }

  method HandleInfoBits(rd: Reader, info: byte) returns (r: Reply<nat>)
    requires rd.Ready() && info < 32
    modifies rd.repr
    ensures |rd.left| <= |old(rd.left)|
    ensures Serves(rd, r, Number(rd.mode, info, old(rd.left)))
  {
    if info <= 23 {
      r := Done(info);
    } else if info == UINT8_FOLLOWS {
      var taux := rd.Read1();
      if !taux.Done? { return Fault(taux); }
      r := Done(taux.value);
    } else if info == UINT16_FOLLOWS {
      var p := ReadPair(rd);
      if !p.Done? { return Fault(p); }
      r := Done((p.value.0 as int) * 256 + p.value.1 as int);
    } else if info == UINT32_FOLLOWS {
      r := ReadBlock(rd, 4);
    } else if info == UINT64_FOLLOWS {
      r := ReadBlock(rd, 8);
    } else {
      r := Done(0);
    }
  }

  method DecodeFloat(rd: Reader, info: byte) returns (r: Reply<Value>)
    requires rd.Ready() && UINT16_FOLLOWS <= info <= UINT64_FOLLOWS
    modifies rd.repr
    ensures |rd.left| <= |old(rd.left)|
    ensures Serves(rd, r, FloatItem(rd.mode, info, old(rd.left)))
  {
    if info == UINT16_FOLLOWS {
      ghost var s := rd.left;
      var p := ReadPair(rd);
      if !p.Done? { return Fault(p); }
      assert s[..2] == [s[0], s[1]];
      var double := Half(p.value.0, p.value.1);
      return Done(Float(double));
    }
    var loan := rd.Read(if info == UINT32_FOLLOWS then 4 else 8);
    if !loan.Done? { return Fault(loan); }
    var payload := Contents(loan.value);
    rd.ReturnBuffer(loan.value);
    return Done(Float(Double(payload)));
  }

  /** The bytes of a definite string; an empty one is not read at all. */
  method LoadBlob(rd: Reader, n: nat) returns (r: Reply<seq<byte>>)
    requires rd.Ready()
    modifies rd.repr
    ensures |rd.left| <= |old(rd.left)|
    ensures Serves(rd, r, Blob(rd.mode, n, old(rd.left)))
  {
    if n == 0 {
      return Done([]);
    }
    var loan := rd.Read(n);
    if !loan.Done? { return Fault(loan); }
    var raw := Contents(loan.value);
    rd.ReturnBuffer(loan.value);
    return Done(raw);
  }

  // ---------- Indefinite byte strings ----------

  ghost function Concat(parts: seq<seq<byte>>): seq<byte> {
    if parts == [] then [] else Concat(parts[..|parts| - 1]) + parts[|parts| - 1]
  }

  lemma ConcatSnoc(parts: seq<seq<byte>>, p: seq<byte>)
    ensures Concat(parts + [p]) == Concat(parts) + p
  {
    assert (parts + [p])[..|parts|] == parts;
  }

  lemma {:induction false} ConcatPrefix(parts: seq<seq<byte>>, i: nat)
    requires i <= |parts|
    ensures |Concat(parts[..i])| <= |Concat(parts)|
    decreases |parts|
  {
    if i == |parts| {
      assert parts[..i] == parts;
    } else {
      var init := parts[..|parts| - 1];
      assert init[..i] == parts[..i];
      ConcatPrefix(init, i);
    }
  }

  /** Copies the parts one after the other into a block of their total size. */
  method Assemble(parts: seq<seq<byte>>, total: nat) returns (all: seq<byte>)
    requires total == |Concat(parts)|
    ensures all == Concat(parts)
  {
    var block := new byte[total];
    var op := 0;
    assert parts[..0] == [];
    for i := 0 to |parts|
      invariant op == |Concat(parts[..i])| <= total
      invariant block[..op] == Concat(parts[..i])
    {
      assert parts[..i + 1] == parts[..i] + [parts[i]];
      ConcatSnoc(parts[..i], parts[i]);
      ConcatPrefix(parts, i + 1);
      CopyInto(block, op, parts[i]);
      op := op + |parts[i]|;
    }
    assert parts[..|parts|] == parts;
    all := block[..];
  }

  method LoadChunk(rd: Reader, c: byte) returns (r: Reply<seq<byte>>)
    requires rd.Ready()
    modifies rd.repr
    ensures |rd.left| <= |old(rd.left)|
    ensures Serves(rd, r, ChunkAfter(rd.mode, c, old(rd.left)))
  {
    var t, info := Bits.SplitHead(c);
    if t != BYTES {
      return Bad;
    }
    var saux := HandleInfoBits(rd, info);
    if !saux.Done? { return Fault(saux); }
    var loan := rd.Read(saux.value);
    if !loan.Done? { return Fault(loan); }
    var blob := Contents(loan.value);
    rd.ReturnBuffer(loan.value);
    return Done(blob);
  }

  /** After `acc`, the string goes on with the chunks of `tail`. */
  ghost predicate ChunksFrom(m: Mode, s0: seq<byte>, acc: seq<byte>, tail: seq<byte>) {
    forall k {:trigger Unsealed(k)} :: Unsealed(k) ==> Chunks(m, s0) == Prefix(acc, Chunks(m, tail))
  }

  lemma ChunksStart(m: Mode, s: seq<byte>)
    ensures ChunksFrom(m, s, [], s)
  {
    PrefixNone(Chunks(m, s));
  }

  lemma ChunksPass(m: Mode, s0: seq<byte>, acc: seq<byte>, tail: seq<byte>)
    requires ChunksFrom(m, s0, acc, tail) && tail != [] && tail[0] != BREAK
    ensures var r := ChunkAfter(m, tail[0], tail[1..]);
            if r.Ok? then ChunksFrom(m, s0, acc + r.value, r.rest) else Chunks(m, s0) == Failure(r)
  {
    assert Unsealed(0);
    ChunksStep(m, tail);
    var r := ChunkAfter(m, tail[0], tail[1..]);
    if r.Ok? {
      PrefixTwice(acc, r.value, Chunks(m, r.rest));
    }
  }

  lemma ChunksStop(m: Mode, s0: seq<byte>, acc: seq<byte>, tail: seq<byte>)
    requires ChunksFrom(m, s0, acc, tail)
    ensures tail == [] ==> Chunks(m, s0) == Fail
    ensures tail != [] && tail[0] == BREAK ==> Chunks(m, s0) == Ok(acc, tail[1..])
  {
    assert Unsealed(0);
    assert acc + [] == acc;
  }

  method LoadVarBytes(rd: Reader) returns (r: Reply<seq<byte>>)
    requires rd.Ready()
    modifies rd.repr
    ensures |rd.left| <= |old(rd.left)|
    ensures Serves(rd, r, Chunks(rd.mode, old(rd.left)))
  {
    ghost var m, s0 := rd.mode, rd.left;
    var parts: seq<seq<byte>>, total := [], 0;
    ChunksStart(m, s0);
    ChunksStop(m, s0, [], s0);
    var sc := rd.Read1();
    if !sc.Done? { return Fault(sc); }
    ghost var tail := s0;
    while sc.value != BREAK
      invariant sc.Done? && rd.Ready()
      invariant total == |Concat(parts)|
      invariant tail != [] && tail[0] == sc.value && tail[1..] == rd.left
      invariant ChunksFrom(m, s0, Concat(parts), tail)
      decreases |rd.left|
    {
      ChunksPass(m, s0, Concat(parts), tail);
      var blob := LoadChunk(rd, sc.value);
      if !blob.Done? { return Fault(blob); }
      ConcatSnoc(parts, blob.value);
      parts, total := parts + [blob.value], total + |blob.value|;
      tail := rd.left;
      ChunksStop(m, s0, Concat(parts), tail);
      sc := rd.Read1();
      if !sc.Done? { return Fault(sc); }
    }
    ChunksStop(m, s0, Concat(parts), tail);
    var all := Assemble(parts, total);
    return Done(all);
  }

  // ---------- Bignums ----------

  method LoadsBignum(rd: Reader, c: byte) returns (r: Reply<nat>)
    requires rd.Ready()
    modifies rd.repr
    ensures |rd.left| <= |old(rd.left)|
    ensures Serves(rd, r, BignumBody(InfoBits(c), old(rd.left)))
  {
    ghost var s := rd.left;
    var _, info := Bits.SplitHead(c);
    if info >= 24 {
      return Bad;
    }
    var out: nat := 0;
    ghost var got: seq<byte> := [];
    for i := 0 to info
      invariant rd.Ready() && |got| == i && got + rd.left == s
      invariant out == FromBE(got)
    {
      var cb := rd.Read1();
      if !cb.Done? { return Fault(cb); }
      FromBESnoc(got, cb.value);
      got := got + [cb.value];
      out := out * 256 + cb.value;
    }
    assert s[..info] == got && s[info..] == rd.left;
    return Done(out);
  }

  method LoadsBignumTag(rd: Reader, num: nat) returns (r: Reply<Value>)
    requires rd.Ready() && (num == TAG_BIGNUM || num == TAG_NEGBIGNUM)
    modifies rd.repr
    ensures |rd.left| <= |old(rd.left)|
    ensures Serves(rd, r, BignumItem(num, old(rd.left)))
  {
    var sc := rd.Read1();
    if !sc.Done? { return Fault(sc); }
    var t, _ := Bits.SplitHead(sc.value);
    if t != BYTES {
      return Bad;
    }
    ghost var body := BignumBody(InfoBits(sc.value), rd.left);
    assert BignumItem(num, old(rd.left)) == Signed(num, body);
    var out := LoadsBignum(rd, sc.value);
    if !out.Done? { return Fault(out); }
    var n: int := out.value;
    if num == TAG_BIGNUM {
      return Done(Int(n));
    }
    return Done(Int(-1 - n));
  }

  // ---------- The walk over a container, pass by pass ----------

  /** After `acc`, the others of the `n` items are still to be read from `tail`. */
  ghost predicate ItemsFrom(m: Mode, s0: seq<byte>, n: nat, acc: seq<Value>, tail: seq<byte>) {
    && |acc| <= n
    && forall k {:trigger Unsealed(k)} :: Unsealed(k) ==>
      Items(m, s0, n) == Prefix(acc, Items(m, tail, n - |acc|))
  }

  lemma ItemsStart(m: Mode, s: seq<byte>, n: nat)
    ensures ItemsFrom(m, s, n, [], s)
  {
    PrefixNone(Items(m, s, n));
  }

  lemma ItemsPass(m: Mode, s0: seq<byte>, n: nat, acc: seq<Value>, tail: seq<byte>)
    requires ItemsFrom(m, s0, n, acc, tail) && |acc| < n
    ensures var r := Item(m, tail);
            if r.Ok? then ItemsFrom(m, s0, n, acc + [r.value], r.rest)
            else Items(m, s0, n) == Failure(r)
  {
    assert Unsealed(0);
    ItemsStep(m, tail, n - |acc|);
    var r := Item(m, tail);
    if r.Ok? {
      PrefixTwice(acc, [r.value], Items(m, r.rest, n - |acc| - 1));
    }
  }

  lemma ItemsStop(m: Mode, s0: seq<byte>, acc: seq<Value>, tail: seq<byte>)
    requires ItemsFrom(m, s0, |acc|, acc, tail)
    ensures Items(m, s0, |acc|) == Ok(acc, tail)
  {
    assert Unsealed(0);
    assert acc + [] == acc;
  }

  /** After `acc`, the container goes on with `tail`. */
  ghost predicate BreakFrom(m: Mode, s0: seq<byte>, acc: seq<Value>, tail: seq<byte>) {
    forall k {:trigger Unsealed(k)} :: Unsealed(k) ==> ItemsToBreak(m, s0) == Prefix(acc, ItemsToBreak(m, tail))
  }

  lemma BreakStart(m: Mode, s: seq<byte>)
    ensures BreakFrom(m, s, [], s)
  {
    PrefixNone(ItemsToBreak(m, s));
  }

  lemma BreakPass(m: Mode, s0: seq<byte>, acc: seq<Value>, tail: seq<byte>)
    requires BreakFrom(m, s0, acc, tail) && tail != [] && tail[0] != BREAK
    ensures var r := ItemAfter(m, tail[0], tail[1..]);
            if r.Ok? then BreakFrom(m, s0, acc + [r.value], r.rest) else ItemsToBreak(m, s0) == Failure(r)
  {
    assert Unsealed(0);
    BreakStep(m, tail);
    var r := ItemAfter(m, tail[0], tail[1..]);
    if r.Ok? {
      PrefixTwice(acc, [r.value], ItemsToBreak(m, r.rest));
    }
  }

  lemma BreakStop(m: Mode, s0: seq<byte>, acc: seq<Value>, tail: seq<byte>)
    requires BreakFrom(m, s0, acc, tail)
    ensures tail == [] ==> ItemsToBreak(m, s0) == Fail
    ensures tail != [] && tail[0] == BREAK ==> ItemsToBreak(m, s0) == Ok(acc, tail[1..])
  {
    assert Unsealed(0);
    assert acc + [] == acc;
  }

  // ---------- Containers and items ----------

  method InnerLoads(rd: Reader) returns (r: Reply<Value>)
    requires rd.Ready()
    modifies rd.repr
    ensures |rd.left| <= |old(rd.left)|
    ensures Serves(rd, r, Item(rd.mode, old(rd.left)))
    ensures old(rd.left) != [] && !r.Raised? ==> |rd.left| < |old(rd.left)|
    decreases |rd.left|, 1
  {
    var c := rd.Read1();
    if !c.Done? { return Fault(c); }
    r := InnerLoadsC(rd, c.value);
  }

  method InnerLoadsC(rd: Reader, c: byte) returns (r: Reply<Value>)
    requires rd.Ready()
    modifies rd.repr
    ensures |rd.left| <= |old(rd.left)|
    ensures Serves(rd, r, ItemAfter(rd.mode, c, old(rd.left)))
    decreases |rd.left| + 1, 0
  {
    var t, info := Bits.SplitHead(c);
    if t == SEVEN && UINT16_FOLLOWS <= info <= UINT64_FOLLOWS {
      r := DecodeFloat(rd, info);
    } else {
      var aux := HandleInfoBits(rd, info);
      if !aux.Done? { return Fault(aux); }
      r := LoadBody(rd, t, info, aux.value);
    }
  }

  /** The switch of `inner_loads_c`. */
  method LoadBody(rd: Reader, t: byte, info: byte, aux: nat) returns (r: Reply<Value>)
    requires rd.Ready()
    modifies rd.repr
    ensures |rd.left| <= |old(rd.left)|
    ensures Serves(rd, r, Body(rd.mode, t, info, aux, old(rd.left)))
    decreases |rd.left|, 5
  {
    if t == UINT {
      r := Done(Int(aux));
    } else if t == NEGINT {
      r := Done(Int(-1 - aux));
    } else if t == BYTES {
      r := LoadBytes(rd, info, aux);
    } else if t == TEXT {
      r := LoadText(rd, info, aux);
    } else if t == ARRAY {
      r := LoadArray(rd, info, aux);
    } else if t == MAP {
      r := LoadMap(rd, info, aux);
    } else if t == TAG {
      r := LoadsTag(rd, aux);
    } else {
      var v := SimpleOf(aux);
      r := if v.Some? then Done(v.value) else Bad;
    }
  }

  method LoadText(rd: Reader, info: byte, aux: nat) returns (r: Reply<Value>)
    requires rd.Ready()
    modifies rd.repr
    ensures |rd.left| <= |old(rd.left)|
    ensures Serves(rd, r, if info == VAR_FOLLOWS then AsJoined(ItemsToBreak(rd.mode, old(rd.left)))
                          else AsText(Blob(rd.mode, aux, old(rd.left))))
    decreases |rd.left|, 3
  {
    if info == VAR_FOLLOWS {
      var parts := LoadItemsToBreak(rd);
      if !parts.Done? { return Fault(parts); }
      var joined := JoinTexts(parts.value);
      r := if joined.Some? then Done(Text(joined.value)) else Bad;
    } else {
      var data := LoadBlob(rd, aux);
      if !data.Done? { return Fault(data); }
      r := if Utf8.Valid(data.value) then Done(Text(data.value)) else Bad;
    }
  }

  /** The loop of an indefinite array, which is also that of an indefinite text. */
  method LoadItemsToBreak(rd: Reader) returns (r: Reply<seq<Value>>)
    requires rd.Ready()
    modifies rd.repr
    ensures |rd.left| <= |old(rd.left)|
    ensures Serves(rd, r, ItemsToBreak(rd.mode, old(rd.left)))
    decreases |rd.left|, 2
  {
    ghost var m, s0 := rd.mode, rd.left;
    var out: seq<Value> := [];
    BreakStart(m, s0);
    BreakStop(m, s0, [], s0);
    var sc := rd.Read1();
    if !sc.Done? { return Fault(sc); }
    ghost var tail := s0;
    while sc.value != BREAK
      invariant sc.Done? && rd.Ready()
      invariant |rd.left| < |s0|
      invariant tail != [] && tail[0] == sc.value && tail[1..] == rd.left
      invariant BreakFrom(m, s0, out, tail)
      decreases |rd.left|
    {
      BreakPass(m, s0, out, tail);
      var subitem := InnerLoadsC(rd, sc.value);
      if !subitem.Done? { return Fault(subitem); }
      out := out + [subitem.value];
      tail := rd.left;
      BreakStop(m, s0, out, tail);
      sc := rd.Read1();
      if !sc.Done? { return Fault(sc); }
    }
    BreakStop(m, s0, out, tail);
    return Done(out);
  }

  /** The loop of a definite array, with its 32-bit counter. */
  method LoadItems(rd: Reader, aux: nat) returns (r: Reply<seq<Value>>)
    requires rd.Ready()
    modifies rd.repr
    ensures |rd.left| <= |old(rd.left)|
    ensures Serves(rd, r, Items(rd.mode, old(rd.left), Rounds(aux, old(rd.left))))
    decreases |rd.left|, 2
  {
    ghost var m, s0 := rd.mode, rd.left;
    ghost var n := Rounds(aux, s0);
    var out: seq<Value>, i := [], 0;
    ItemsStart(m, s0, n);
    while i < aux
      invariant rd.Ready() && |rd.left| <= |s0| && 0 <= i < MAX_COUNT
      invariant if aux < MAX_COUNT then |out| == i <= n else n - |out| > |rd.left|
      invariant ItemsFrom(m, s0, n, out, rd.left)
      decreases |rd.left|
    {
      ItemsPass(m, s0, n, out, rd.left);
      var subitem := InnerLoads(rd);
      if !subitem.Done? { return Fault(subitem); }
      out := out + [subitem.value];
      i := if i == MAX_COUNT - 1 then 0 else i + 1;
    }
    ItemsStop(m, s0, out, rd.left);
    return Done(out);
  }

  /** A key and a value. */
  ghost function PairAt(m: Mode, s: seq<byte>): (r: Parsed<(Value, Value)>)
    ensures r.Ok? ==> |r.rest| + 2 <= |s|
  {
    var k := Item(m, s);
    if !k.Ok? then Failure(k)
    else
      var v := Item(m, k.rest);
      if !v.Ok? then Failure(v) else Ok((k.value, v.value), v.rest)
  }

  method LoadsKv(rd: Reader) returns (r: Reply<(Value, Value)>)
    requires rd.Ready()
    modifies rd.repr
    ensures |rd.left| <= |old(rd.left)|
    ensures Serves(rd, r, PairAt(rd.mode, old(rd.left)))
    decreases |rd.left|, 2
  {
    var key := InnerLoads(rd);
    if !key.Done? { return Fault(key); }
    var value := InnerLoads(rd);
    if !value.Done? { return Fault(value); }
    return Done((key.value, value.value));
  }

  lemma PairsPassValue(m: Mode, s0: seq<byte>, n: nat, acc: seq<Value>, k: Value, tail: seq<byte>)
    requires ItemsFrom(m, s0, n, acc + [k], tail) && |acc| + 1 < n
    ensures var r := Item(m, tail);
            if r.Ok? then ItemsFrom(m, s0, n, acc + [k, r.value], r.rest)
            else Items(m, s0, n) == Failure(r)
  {
    ItemsPass(m, s0, n, acc + [k], tail);
    var r := Item(m, tail);
    if r.Ok? {
      assert acc + [k] + [r.value] == acc + [k, r.value];
    }
  }

  lemma PairsPass(m: Mode, s0: seq<byte>, n: nat, acc: seq<Value>, tail: seq<byte>)
    requires ItemsFrom(m, s0, n, acc, tail) && |acc| + 1 < n
    ensures var r := PairAt(m, tail);
            if r.Ok? then ItemsFrom(m, s0, n, acc + [r.value.0, r.value.1], r.rest)
            else Items(m, s0, n) == Failure(r)
  {
    ItemsPass(m, s0, n, acc, tail);
    var k := Item(m, tail);
    if k.Ok? {
      PairsPassValue(m, s0, n, acc, k.value, k.rest);
      var v, r := Item(m, k.rest), PairAt(m, tail);
      if v.Ok? {
        assert r.rest == v.rest && [r.value.0, r.value.1] == [k.value, v.value];
      }
    }
  }

  /** `out` is the dict of the items read so far. */
  ghost predicate Collects(out: Option<seq<Entry>>, kvs: seq<Value>) {
    && (out.Some? ==> ScalarKeys(out.value))
    && forall k {:trigger Unsealed(k)} :: Unsealed(k) ==> out == Build(kvs)
  }

  lemma CollectsMore(out: Option<seq<Entry>>, kvs: seq<Value>, k: Value, v: Value)
    requires Collects(out, kvs)
    ensures Collects(SetItem(out, k, v), kvs + [k, v])
  {
    assert Unsealed(0);
    BuildSnoc(kvs, k, v);
  }

  lemma CollectsAll(out: Option<seq<Entry>>, kvs: seq<Value>, rest: seq<byte>)
    requires Collects(out, kvs)
    ensures AsGroup(true, Ok(kvs, rest)) == if out.Some? then Ok(Dict(out.value), rest) else Fail
  {
    assert Unsealed(0);
  }

  /** The same outcome, with `v` as its result. */
  ghost function Relabel<T, U>(r: Reply<T>, v: U): Reply<U> {
    if r.Done? then Done(v) else Fault(r)
  }

  /** The loop of a definite map; `kvs` lists the keys and values in reading order. */
  method LoadPairs(rd: Reader, aux: nat) returns (r: Reply<Option<seq<Entry>>>, ghost kvs: seq<Value>)
    requires rd.Ready()
    modifies rd.repr
    ensures |rd.left| <= |old(rd.left)|
    ensures Serves(rd, Relabel(r, kvs), Items(rd.mode, old(rd.left), 2 * Rounds(aux, old(rd.left))))
    ensures r.Done? ==> Collects(r.value, kvs)
    decreases |rd.left|, 3
  {
    ghost var m, s0 := rd.mode, rd.left;
    ghost var n := 2 * Rounds(aux, s0);
    var out: Option<seq<Entry>>, i := Some([]), 0;
    kvs := [];
    ItemsStart(m, s0, n);
    while i < aux
      invariant rd.Ready() && |rd.left| <= |s0| && 0 <= i < MAX_COUNT
      invariant if aux < MAX_COUNT then |kvs| == 2 * i <= n else n - |kvs| > |rd.left| + 1
      invariant ItemsFrom(m, s0, n, kvs, rd.left)
      invariant Collects(out, kvs)
      decreases |rd.left|
    {
      PairsPass(m, s0, n, kvs, rd.left);
      var kv := LoadsKv(rd);
      if !kv.Done? { return Fault(kv), kvs; }
      CollectsMore(out, kvs, kv.value.0, kv.value.1);
      out := SetItem(out, kv.value.0, kv.value.1);
      kvs := kvs + [kv.value.0, kv.value.1];
      i := if i == MAX_COUNT - 1 then 0 else i + 1;
    }
    ItemsStop(m, s0, kvs, rd.left);
    r := Done(out);
  }

  /** A key whose first byte is `c`, and a value. */
  ghost function PairAfter(m: Mode, c: byte, s: seq<byte>): (r: Parsed<(Value, Value)>)
    ensures r.Ok? ==> |r.rest| < |s|
  {
    var k := ItemAfter(m, c, s);
    if !k.Ok? then Failure(k)
    else
      var v := Item(m, k.rest);
      if !v.Ok? then Failure(v) else Ok((k.value, v.value), v.rest)
  }

  /** The body of the loop over an indefinite map, up to `PyDict_SetItem`. */
  method LoadsVarKv(rd: Reader, sc: byte) returns (r: Reply<(Value, Value)>)
    requires rd.Ready()
    modifies rd.repr
    ensures |rd.left| <= |old(rd.left)|
    ensures Serves(rd, r, PairAfter(rd.mode, sc, old(rd.left)))
    decreases |rd.left| + 1, 1
  {
    var key := InnerLoadsC(rd, sc);
    if !key.Done? { return Fault(key); }
    var value := InnerLoads(rd);
    if !value.Done? { return Fault(value); }
    return Done((key.value, value.value));
  }

  /** A map is not ended by a break in the place of a value. */
  ghost function Even(r: Parsed<seq<Value>>): Parsed<seq<Value>> {
    if r.Ok? && |r.value| % 2 == 1 then Fail else r
  }

  lemma EvenGroup(r: Parsed<seq<Value>>)
    ensures AsGroup(true, Even(r)) == AsGroup(true, r)
  {
    if r.Ok? && Build(r.value).Some? {
      BuildEven(r.value);
    }
  }

  /** In the place of a value a break makes the item fail. */
  lemma BreakPassValue(m: Mode, s0: seq<byte>, acc: seq<Value>, k: Value, tail: seq<byte>)
    requires BreakFrom(m, s0, acc + [k], tail) && |acc| % 2 == 0
    ensures var r := Item(m, tail);
            if r.Ok? then BreakFrom(m, s0, acc + [k, r.value], r.rest)
            else Even(ItemsToBreak(m, s0)) == Failure(r)
  {
    BreakStop(m, s0, acc + [k], tail);
    if tail != [] {
      if tail[0] == BREAK {
        BreakIsNoItem(m, tail);
      } else {
        BreakPass(m, s0, acc + [k], tail);
        var r := Item(m, tail);
        if r.Ok? {
          assert acc + [k] + [r.value] == acc + [k, r.value];
        }
      }
    }
  }

  lemma BreakPairsPass(m: Mode, s0: seq<byte>, acc: seq<Value>, tail: seq<byte>)
    requires BreakFrom(m, s0, acc, tail) && tail != [] && tail[0] != BREAK && |acc| % 2 == 0
    ensures var r := PairAfter(m, tail[0], tail[1..]);
            if r.Ok? then BreakFrom(m, s0, acc + [r.value.0, r.value.1], r.rest)
            else Even(ItemsToBreak(m, s0)) == Failure(r)
  {
    BreakPass(m, s0, acc, tail);
    var k := ItemAfter(m, tail[0], tail[1..]);
    if k.Ok? {
      BreakPassValue(m, s0, acc, k.value, k.rest);
      var v, r := Item(m, k.rest), PairAfter(m, tail[0], tail[1..]);
      if v.Ok? {
        assert r.rest == v.rest && [r.value.0, r.value.1] == [k.value, v.value];
      }
    }
  }

  /** The loop of an indefinite map. */
  method LoadPairsToBreak(rd: Reader) returns (r: Reply<Option<seq<Entry>>>, ghost kvs: seq<Value>)
    requires rd.Ready()
    modifies rd.repr
    ensures |rd.left| <= |old(rd.left)|
    ensures Serves(rd, Relabel(r, kvs), Even(ItemsToBreak(rd.mode, old(rd.left))))
    ensures r.Done? ==> Collects(r.value, kvs)
    decreases |rd.left|, 3
  {
    ghost var m, s0 := rd.mode, rd.left;
    var out: Option<seq<Entry>> := Some([]);
    kvs := [];
    BreakStart(m, s0);
    BreakStop(m, s0, [], s0);
    var sc := rd.Read1();
    if !sc.Done? { return Fault(sc), kvs; }
    ghost var tail, pairs := s0, 0;
    while sc.value != BREAK
      invariant sc.Done? && rd.Ready()
      invariant |rd.left| < |s0| && |kvs| == 2 * pairs
      invariant tail != [] && tail[0] == sc.value && tail[1..] == rd.left
      invariant BreakFrom(m, s0, kvs, tail)
      invariant Collects(out, kvs)
      decreases |rd.left|
    {
      BreakPairsPass(m, s0, kvs, tail);
      var kv := LoadsVarKv(rd, sc.value);
      if !kv.Done? { return Fault(kv), kvs; }
      CollectsMore(out, kvs, kv.value.0, kv.value.1);
      out := SetItem(out, kv.value.0, kv.value.1);
      kvs, pairs := kvs + [kv.value.0, kv.value.1], pairs + 1;
      tail := rd.left;
      BreakStop(m, s0, kvs, tail);
      sc := rd.Read1();
      if !sc.Done? { return Fault(sc), kvs; }
    }
    BreakStop(m, s0, kvs, tail);
    r := Done(out);
  }

  /** Ends with a dict, unless `PyDict_SetItem` met an unhashable key on the way. */
  method LoadMap(rd: Reader, info: byte, aux: nat) returns (r: Reply<Value>)
    requires rd.Ready()
    modifies rd.repr
    ensures |rd.left| <= |old(rd.left)|
    ensures Serves(rd, r, AsGroup(true, GroupItems(rd.mode, true, info, aux, old(rd.left))))
    decreases |rd.left|, 4
  {
    ghost var items := GroupItems(rd.mode, true, info, aux, rd.left);
    EvenGroup(items);
    var out;
    ghost var kvs;
    if info == VAR_FOLLOWS { out, kvs := LoadPairsToBreak(rd); } else { out, kvs := LoadPairs(rd, aux); }
    if !out.Done? { return Fault(out); }
    CollectsAll(out.value, kvs, rd.left);
    r := if out.value.Some? then Done(Dict(out.value.value)) else Bad;
  }

  method LoadArray(rd: Reader, info: byte, aux: nat) returns (r: Reply<Value>)
    requires rd.Ready()
    modifies rd.repr
    ensures |rd.left| <= |old(rd.left)|
    ensures Serves(rd, r, AsGroup(false, GroupItems(rd.mode, false, info, aux, old(rd.left))))
    decreases |rd.left|, 4
  {
    var items;
    if info == VAR_FOLLOWS { items := LoadItemsToBreak(rd); } else { items := LoadItems(rd, aux); }
    if !items.Done? { return Fault(items); }
    r := Done(List(items.value, false));
  }

  method LoadBytes(rd: Reader, info: byte, aux: nat) returns (r: Reply<Value>)
    requires rd.Ready()
    modifies rd.repr
    ensures |rd.left| <= |old(rd.left)|
    ensures Serves(rd, r, AsBytes(if info == VAR_FOLLOWS then Chunks(rd.mode, old(rd.left))
                                  else Blob(rd.mode, aux, old(rd.left))))
  {
    var data;
    if info == VAR_FOLLOWS { data := LoadVarBytes(rd); } else { data := LoadBlob(rd, aux); }
    if !data.Done? { return Fault(data); }
    r := Done(Bytes(data.value));
  }

  method LoadsTag(rd: Reader, aux: nat) returns (r: Reply<Value>)
    requires rd.Ready()
    modifies rd.repr
    ensures |rd.left| <= |old(rd.left)|
    ensures Serves(rd, r, if aux == TAG_BIGNUM || aux == TAG_NEGBIGNUM then BignumItem(aux, old(rd.left))
                          else AsTag(aux, Item(rd.mode, old(rd.left))))
    decreases |rd.left|, 4
  {
    if aux == TAG_BIGNUM || aux == TAG_NEGBIGNUM {
      r := LoadsBignumTag(rd, aux);
    } else {
      var out := InnerLoads(rd);
      if !out.Done? { return Fault(out); }
      r := Done(Tag(aux, out.value));
    }
  }
}
