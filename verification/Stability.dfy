/**
  The C decoder on arbitrary bytes: appending bytes changes nothing, cutting an item short
  makes it fail, and a value is never larger than the bytes it came from.
 */
module Stability {
  import opened Prelude
  import opened BigEndian
  import opened Values
  import opened Wire
  import opened CGrammar
  import CSoundness
  import Utf8

  // ---------- More bytes behind an item ----------

  /** `more` is the success of `r`, with `t` behind the bytes left over. */
  predicate Extends<T(==)>(r: Parsed<T>, more: Parsed<T>, t: seq<byte>) {
    r.Ok? ==> more == Ok(r.value, r.rest + t)
  }

  lemma Dropped(s: seq<byte>, k: nat, t: seq<byte>)
    requires k <= |s|
    ensures (s + t)[..k] == s[..k] && (s + t)[k..] == s[k..] + t
  {
  }

  lemma TakeExtends(m: Mode, s: seq<byte>, n: nat, t: seq<byte>)
    ensures Extends(Take(m, s, n), Take(m, s + t, n), t)
  {
    if n <= |s| {
      Dropped(s, n, t);
    }
  }

  lemma NumberExtends(m: Mode, info: byte, s: seq<byte>, t: seq<byte>)
    requires info < 32
    ensures Extends(Number(m, info, s), Number(m, info, s + t), t)
  {
    if info == UINT8_FOLLOWS {
      if |s| >= 1 { Dropped(s, 1, t); }
    } else if info == UINT16_FOLLOWS {
      if |s| >= 2 { Dropped(s, 2, t); }
    } else {
      TakeExtends(m, s, 4, t);
      TakeExtends(m, s, 8, t);
    }
  }

  lemma FloatExtends(m: Mode, info: byte, s: seq<byte>, t: seq<byte>)
    requires UINT16_FOLLOWS <= info <= UINT64_FOLLOWS
    ensures Extends(FloatItem(m, info, s), FloatItem(m, info, s + t), t)
  {
    if |s| >= 2 { Dropped(s, 2, t); }
    TakeExtends(m, s, 4, t);
    TakeExtends(m, s, 8, t);
  }

  lemma BlobExtends(m: Mode, n: nat, s: seq<byte>, t: seq<byte>)
    ensures Extends(Blob(m, n, s), Blob(m, n, s + t), t)
  {
    TakeExtends(m, s, n, t);
  }

  lemma BignumExtends(num: nat, s: seq<byte>, t: seq<byte>)
    ensures Extends(BignumItem(num, s), BignumItem(num, s + t), t)
  {
    if s != [] {
      Dropped(s, 1, t);
      var info, body := InfoBits(s[0]), s[1..];
      if info <= |body| {
        Dropped(body, info, t);
      }
    }
  }

  lemma ChunkExtends(m: Mode, c: byte, s: seq<byte>, t: seq<byte>)
    ensures Extends(ChunkAfter(m, c, s), ChunkAfter(m, c, s + t), t)
  {
    NumberExtends(m, InfoBits(c), s, t);
    var n := Number(m, InfoBits(c), s);
    if n.Ok? {
      TakeExtends(m, n.rest, n.value, t);
    }
  }

  lemma {:induction false} ChunksExtend(m: Mode, s: seq<byte>, t: seq<byte>)
    ensures Extends(Chunks(m, s), Chunks(m, s + t), t)
    decreases |s|
  {
    if s != [] {
      Dropped(s, 1, t);
      if s[0] != BREAK {
        ChunkExtends(m, s[0], s[1..], t);
        ChunksStep(m, s);
        ChunksStep(m, s + t);
        var c := ChunkAfter(m, s[0], s[1..]);
        if c.Ok? {
          ChunksExtend(m, c.rest, t);
        }
      }
    }
  }

  /** Appending bytes to an item that decodes leaves its value alone. */
  lemma {:induction false} ItemExtends(m: Mode, s: seq<byte>, t: seq<byte>)
    ensures Extends(Item(m, s), Item(m, s + t), t)
    decreases |s|, 1
  {
    if s != [] {
      Dropped(s, 1, t);
      ItemAfterExtends(m, s[0], s[1..], t);
    }
  }

  lemma {:induction false} ItemAfterExtends(m: Mode, c: byte, s: seq<byte>, t: seq<byte>)
    ensures Extends(ItemAfter(m, c, s), ItemAfter(m, c, s + t), t)
    decreases |s| + 1, 0
  {
    var info := InfoBits(c);
    if TypeBits(c) == SEVEN && UINT16_FOLLOWS <= info <= UINT64_FOLLOWS {
      FloatExtends(m, info, s, t);
    } else {
      NumberExtends(m, info, s, t);
      var n := Number(m, info, s);
      if n.Ok? {
        BodyExtends(m, TypeBits(c), info, n.value, n.rest, t);
      }
    }
  }

  lemma {:induction false} BodyExtends(m: Mode, ty: byte, info: byte, aux: nat, s: seq<byte>, t: seq<byte>)
    ensures Extends(Body(m, ty, info, aux, s), Body(m, ty, info, aux, s + t), t)
    decreases |s|, 4
  {
    if ty == BYTES || ty == TEXT {
      if ty == BYTES { ChunksExtend(m, s, t); } else { ItemsToBreakExtend(m, s, t); }
      BlobExtends(m, aux, s, t);
      StringExtends(m, ty == TEXT, info, aux, s, t);
    } else if ty == ARRAY || ty == MAP {
      GroupExtends(m, ty == MAP, info, aux, s, t);
    } else if ty == TAG {
      BignumExtends(aux, s, t);
      ItemExtends(m, s, t);
    }
  }

  lemma StringExtends(m: Mode, text: bool, info: byte, aux: nat, s: seq<byte>, t: seq<byte>)
    requires Extends(Blob(m, aux, s), Blob(m, aux, s + t), t)
    requires if text then Extends(ItemsToBreak(m, s), ItemsToBreak(m, s + t), t) else Extends(Chunks(m, s), Chunks(m, s + t), t)
    ensures var ty := if text then TEXT else BYTES;
            Extends(Body(m, ty, info, aux, s), Body(m, ty, info, aux, s + t), t)
  {
  }

  lemma {:induction false} GroupExtends(m: Mode, isMap: bool, info: byte, aux: nat, s: seq<byte>, t: seq<byte>)
    ensures Extends(GroupItems(m, isMap, info, aux, s), GroupItems(m, isMap, info, aux, s + t), t)
    decreases |s|, 3
  {
    if info == VAR_FOLLOWS {
      ItemsToBreakExtend(m, s, t);
    } else if aux < MAX_COUNT {
      ItemsExtend(m, s, if isMap then 2 * aux else aux, t);
    }
  }

  lemma {:induction false} ItemsExtend(m: Mode, s: seq<byte>, n: nat, t: seq<byte>)
    ensures Extends(Items(m, s, n), Items(m, s + t, n), t)
    decreases |s|, 2, n
  {
    if n > 0 {
      ItemExtends(m, s, t);
      ItemsStep(m, s, n);
      ItemsStep(m, s + t, n);
      var r := Item(m, s);
      if r.Ok? {
        ItemsExtend(m, r.rest, n - 1, t);
      }
    }
  }

  lemma {:induction false} ItemsToBreakExtend(m: Mode, s: seq<byte>, t: seq<byte>)
    ensures Extends(ItemsToBreak(m, s), ItemsToBreak(m, s + t), t)
    decreases |s|, 2
  {
    if s != [] {
      Dropped(s, 1, t);
      if s[0] != BREAK {
        ItemExtends(m, s, t);
        var r := Item(m, s);
        if r.Ok? {
          ItemsToBreakExtend(m, r.rest, t);
        }
      }
    }
  }

  /** The C decoder rejects every proper prefix of an item. */
  lemma PrefixRejected(m: Mode, w: DataItem, k: nat)
    requires Readable(w) && k < |Flatten(w)|
    ensures !Item(m, Flatten(w)[..k]).Ok?
  {
    var s := Flatten(w);
    var head, tail := s[..k], s[k..];
    assert head + tail == s && s + [] == s;
    ItemExtends(m, head, tail);
    CSoundness.ItemVerdict(m, w, []);
  }

  /** A buffer never keeps the decoder waiting. */
  lemma {:induction false} BufferNeverStalls(s: seq<byte>)
    ensures !Item(Buffer, s).Stall?
    decreases |s|, 1
  {
    if s != [] {
      AfterNeverStalls(s[0], s[1..]);
    }
  }

  lemma {:induction false} AfterNeverStalls(c: byte, s: seq<byte>)
    ensures !ItemAfter(Buffer, c, s).Stall?
    decreases |s| + 1, 0
  {
    var info := InfoBits(c);
    if TypeBits(c) == SEVEN && UINT16_FOLLOWS <= info <= UINT64_FOLLOWS {
    } else {
      var n := Number(Buffer, info, s);
      if n.Ok? {
        BodyNeverStalls(TypeBits(c), info, n.value, n.rest);
      }
    }
  }

  lemma {:induction false} BodyNeverStalls(ty: byte, info: byte, aux: nat, s: seq<byte>)
    ensures !Body(Buffer, ty, info, aux, s).Stall?
    decreases |s|, 4
  {
    if ty == BYTES {
      ChunksNeverStall(s);
    } else if ty == TEXT {
      BreakNeverStalls(s);
    } else if ty == ARRAY || ty == MAP {
      BreakNeverStalls(s);
      ItemsNeverStall(s, if ty == MAP then 2 * Rounds(aux, s) else Rounds(aux, s));
    } else if ty == TAG {
      BufferNeverStalls(s);
    }
  }

  lemma {:induction false} ChunksNeverStall(s: seq<byte>)
    ensures !Chunks(Buffer, s).Stall?
    decreases |s|
  {
    if s != [] && s[0] != BREAK {
      var c := ChunkAfter(Buffer, s[0], s[1..]);
      if c.Ok? {
        ChunksNeverStall(c.rest);
      }
    }
  }

  lemma {:induction false} ItemsNeverStall(s: seq<byte>, n: nat)
    ensures !Items(Buffer, s, n).Stall?
    decreases |s|, 2, n
  {
    if n > 0 {
      BufferNeverStalls(s);
      var r := Item(Buffer, s);
      if r.Ok? {
        ItemsNeverStall(r.rest, n - 1);
      }
    }
  }

  lemma {:induction false} BreakNeverStalls(s: seq<byte>)
    ensures !ItemsToBreak(Buffer, s).Stall?
    decreases |s|, 2
  {
    if s != [] && s[0] != BREAK {
      BufferNeverStalls(s);
      var r := Item(Buffer, s);
      if r.Ok? {
        BreakNeverStalls(r.rest);
      }
    }
  }

  // ---------- Values against bytes ----------

  lemma {:induction false} NodesAllConcat(as_: seq<Value>, bs: seq<Value>)
    ensures NodesAll(as_ + bs) == NodesAll(as_) + NodesAll(bs)
  {
    if as_ == [] {
      assert as_ + bs == bs;
    } else {
      NodesAllConcat(as_[1..], bs);
      assert (as_ + bs)[1..] == as_[1..] + bs;
    }
  }

  lemma {:induction false} NodesPut(es: seq<Entry>, k: Value, v: Value)
    requires ScalarKeys(es) && Scalar(k)
    ensures NodesEntries(Put(es, k, v)) <= NodesEntries(es) + Nodes(k) + Nodes(v)
  {
    if es == [] || KeyEq(es[0].key, k) {
      assert es != [] ==> Put(es, k, v)[1..] == es[1..];
      assert es == [] ==> Put(es, k, v) == [Entry(k, v)];
    } else {
      NodesPut(es[1..], k, v);
      PutBehind(es, k, v);
    }
  }

  lemma PutBehind(es: seq<Entry>, k: Value, v: Value)
    requires es != [] && ScalarKeys(es) && Scalar(k) && !KeyEq(es[0].key, k)
    ensures Put(es, k, v) == [es[0]] + Put(es[1..], k, v)
  {
  }

  lemma {:induction false} NodesBuild(kvs: seq<Value>)
    requires Build(kvs).Some?
    ensures NodesEntries(Build(kvs).value) <= NodesAll(kvs)
    decreases |kvs|
  {
    if kvs != [] {
      var n := |kvs| - 2;
      var front, k, v := kvs[..n], kvs[n], kvs[n + 1];
      NodesBuild(front);
      NodesPut(Build(front).value, k, v);
      NodesAllConcat(front, [k, v]);
      assert kvs == front + [k, v];
      assert [k, v][1..] == [v] && [v][1..] == [];
      assert NodesAll([k, v]) == Nodes(k) + NodesAll([v]);
    }
  }

  /** A decoded value has no more objects than the bytes it was decoded from. */
  lemma {:induction false} NodesItem(m: Mode, s: seq<byte>)
    ensures var r := Item(m, s); r.Ok? ==> Nodes(r.value) + |r.rest| <= |s|
    decreases |s|, 1
  {
    if s != [] {
      NodesAfter(m, s[0], s[1..]);
    }
  }

  lemma {:induction false} NodesAfter(m: Mode, c: byte, s: seq<byte>)
    ensures var r := ItemAfter(m, c, s); r.Ok? ==> Nodes(r.value) + |r.rest| <= |s| + 1
    decreases |s| + 1, 0
  {
    var info := InfoBits(c);
    if !(TypeBits(c) == SEVEN && UINT16_FOLLOWS <= info <= UINT64_FOLLOWS) {
      var n := Number(m, info, s);
      if n.Ok? {
        NodesBody(m, TypeBits(c), info, n.value, n.rest);
      }
    }
  }

  lemma NodesGrouped(isMap: bool, vs: seq<Value>)
    ensures var g := Grouped(isMap, Some(vs)); g.Some? ==> Nodes(g.value) <= 1 + NodesAll(vs)
  {
    if isMap && Build(vs).Some? {
      NodesBuild(vs);
    }
  }

  lemma {:induction false} NodesBody(m: Mode, ty: byte, info: byte, aux: nat, s: seq<byte>)
    ensures var r := Body(m, ty, info, aux, s); r.Ok? ==> Nodes(r.value) + |r.rest| <= |s| + 1
    decreases |s|, 4
  {
    if ty == ARRAY || ty == MAP {
      NodesGroup(m, ty == MAP, info, aux, s);
      var g := GroupItems(m, ty == MAP, info, aux, s);
      if g.Ok? {
        NodesGrouped(ty == MAP, g.value);
      }
    } else if ty == TAG {
      NodesItem(m, s);
    }
  }

  lemma {:induction false} NodesGroup(m: Mode, isMap: bool, info: byte, aux: nat, s: seq<byte>)
    ensures var r := GroupItems(m, isMap, info, aux, s); r.Ok? ==> NodesAll(r.value) + |r.rest| <= |s|
    decreases |s|, 3
  {
    if info == VAR_FOLLOWS {
      NodesToBreak(m, s);
    } else {
      NodesItems(m, s, if isMap then 2 * Rounds(aux, s) else Rounds(aux, s));
    }
  }

  lemma NodesCons(v: Value, vs: seq<Value>)
    ensures NodesAll([v] + vs) == Nodes(v) + NodesAll(vs)
  {
    assert ([v] + vs)[1..] == vs;
  }

  lemma {:induction false} NodesItems(m: Mode, s: seq<byte>, n: nat)
    ensures var r := Items(m, s, n); r.Ok? ==> NodesAll(r.value) + |r.rest| <= |s|
    decreases |s|, 2, n
  {
    if n > 0 {
      NodesItem(m, s);
      var r := Item(m, s);
      if r.Ok? {
        NodesItems(m, r.rest, n - 1);
        var more := Items(m, r.rest, n - 1);
        if more.Ok? {
          NodesCons(r.value, more.value);
        }
      }
    }
  }

  lemma {:induction false} NodesToBreak(m: Mode, s: seq<byte>)
    ensures var r := ItemsToBreak(m, s); r.Ok? ==> NodesAll(r.value) + |r.rest| < |s|
    decreases |s|, 2
  {
    if s != [] && s[0] != BREAK {
      NodesItem(m, s);
      var r := Item(m, s);
      if r.Ok? {
        NodesToBreak(m, r.rest);
        var more := ItemsToBreak(m, r.rest);
        if more.Ok? {
          NodesCons(r.value, more.value);
        }
      }
    }
  }
}
