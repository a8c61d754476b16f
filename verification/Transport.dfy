/**
  The C decoder over a stream against the C decoder over bytes, on arbitrary input.
 */
module Transport {
  import opened Prelude
  import opened BigEndian
  import opened Values
  import opened Wire
  import opened CGrammar
  import Utf8

  /**
    What a stream delivers is what a buffer holds: the same value and the same bytes left
    over; and where a block is never completed the buffer is too short as well.
   */
  predicate Refines<T(==)>(o: Parsed<T>, b: Parsed<T>) {
    && (o.Ok? ==> b == o)
    && (o.Stall? ==> b == Fail)
  }

  lemma NumberRefines(info: byte, s: seq<byte>)
    requires info < 32
    ensures Refines(Number(Object, info, s), Number(Buffer, info, s))
  {
  }

  lemma ChunkRefines(c: byte, s: seq<byte>)
    ensures Refines(ChunkAfter(Object, c, s), ChunkAfter(Buffer, c, s))
  {
    NumberRefines(InfoBits(c), s);
  }

  lemma {:induction false} ChunksRefine(s: seq<byte>)
    ensures Refines(Chunks(Object, s), Chunks(Buffer, s))
    decreases |s|
  {
    if s != [] && s[0] != BREAK {
      ChunkRefines(s[0], s[1..]);
      var c := ChunkAfter(Object, s[0], s[1..]);
      if c.Ok? {
        ChunksRefine(c.rest);
      }
    }
  }

  lemma {:induction false} ItemRefines(s: seq<byte>)
    ensures Refines(Item(Object, s), Item(Buffer, s))
    decreases |s|, 1
  {
    if s != [] {
      AfterRefines(s[0], s[1..]);
    }
  }

  lemma {:induction false} AfterRefines(c: byte, s: seq<byte>)
    ensures Refines(ItemAfter(Object, c, s), ItemAfter(Buffer, c, s))
    decreases |s| + 1, 0
  {
    var info := InfoBits(c);
    if !(TypeBits(c) == SEVEN && UINT16_FOLLOWS <= info <= UINT64_FOLLOWS) {
      NumberRefines(info, s);
      var n := Number(Object, info, s);
      if n.Ok? {
        BodyRefines(TypeBits(c), info, n.value, n.rest);
      }
    }
  }

  lemma {:induction false} BodyRefines(ty: byte, info: byte, aux: nat, s: seq<byte>)
    ensures Refines(Body(Object, ty, info, aux, s), Body(Buffer, ty, info, aux, s))
    decreases |s|, 4
  {
    if ty == BYTES {
      ChunksRefine(s);
    } else if ty == TEXT {
      BreakRefines(s);
    } else if ty == ARRAY || ty == MAP {
      GroupRefines(ty == MAP, info, aux, s);
      GroupedRefines(ty == MAP, GroupItems(Object, ty == MAP, info, aux, s), GroupItems(Buffer, ty == MAP, info, aux, s));
    } else if ty == TAG {
      ItemRefines(s);
    }
  }

  lemma GroupedRefines(isMap: bool, o: Parsed<seq<Value>>, b: Parsed<seq<Value>>)
    requires Refines(o, b)
    ensures Refines(AsGroup(isMap, o), AsGroup(isMap, b))
  {
  }

  lemma {:induction false} GroupRefines(isMap: bool, info: byte, aux: nat, s: seq<byte>)
    ensures Refines(GroupItems(Object, isMap, info, aux, s), GroupItems(Buffer, isMap, info, aux, s))
    decreases |s|, 3
  {
    if info == VAR_FOLLOWS {
      BreakRefines(s);
    } else {
      ItemsRefine(s, if isMap then 2 * Rounds(aux, s) else Rounds(aux, s));
    }
  }

  lemma {:induction false} ItemsRefine(s: seq<byte>, n: nat)
    ensures Refines(Items(Object, s, n), Items(Buffer, s, n))
    decreases |s|, 2, n
  {
    if n > 0 {
      ItemRefines(s);
      var r := Item(Object, s);
      if r.Ok? {
        ItemsRefine(r.rest, n - 1);
      }
    }
  }

  lemma {:induction false} BreakRefines(s: seq<byte>)
    ensures Refines(ItemsToBreak(Object, s), ItemsToBreak(Buffer, s))
    decreases |s|, 2
  {
    if s != [] && s[0] != BREAK {
      ItemRefines(s);
      var r := Item(Object, s);
      if r.Ok? {
        BreakRefines(r.rest);
      }
    }
  }
}
