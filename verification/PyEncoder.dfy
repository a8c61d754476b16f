/**
  The Python encoder: byte strings built from parts, with its own thresholds for
  integers, proved to return what `Outcome` says.
 */
module PyEncoder {
  import opened Prelude
  import opened BigEndian
  import opened Values
  import opened Wire
  import opened Sorting
  import opened Encoding
  import opened Outcome

  // ---------- Integers ----------

  method DumpsBignumToBytearray(val: nat) returns (out: seq<byte>)
    ensures out == MinBE(val)
  {
    var v := val;
    out := [];
    while v > 0
      invariant MinBE(val) == MinBE(v) + out
      decreases v
    {
      out := [v % 256] + out;
      v := v / 256;
    }
  }

  /** `struct.pack` of a head byte and a big-endian number of fixed width. */
  function Pack(t: byte, w: Width, val: nat): seq<byte>
    requires IsMajor(t) && Fits(w, val)
  {
    HeadAt(t, w, val)
  }

  method EncodeTypeNum(t: byte, val: int) returns (r: Option<seq<byte>>)
    requires IsMajor(t) && (t == NEGINT ==> val >= 0 && SizedInt(val))
    ensures t == NEGINT ==> r == Some(IntOut(Python, -1 - val))
    ensures t != NEGINT ==> r == if 0 <= val < HEAD_LIMIT then Some(Head(t, val)) else None
    decreases t == NEGINT
  {
    if val < 0 {
      return None;  // assert val >= 0
    }
    if val <= 23 {
      return Some(Pack(t, Imm, val));
    }
    if val <= 0xFF {
      return Some(Pack(t, One, val));
    }
    if val <= 0xFFFF {
      return Some(Pack(t, Two, val));
    }
    if val <= 0xFFFF_FFFF {
      return Some(Pack(t, Four, val));
    }
    if (t == NEGINT && val <= 0x7FFF_FFFF_FFFF_FFFF) || (t != NEGINT && val <= 0xFFFF_FFFF_FFFF_FFFF) {
      return Some(Pack(t, Eight, val));
    }
    if t != NEGINT {
      return None;
    }
    var outb := DumpsBignumToBytearray(val);
    var head := EncodeTypeNum(BYTES, |outb|);
    if head.None? {
      return None;
    }
    return Some([TypeOr(TAG, TAG_NEGBIGNUM)] + head.value + outb);
  }

  method DumpsInt(val: int) returns (r: Option<seq<byte>>)
    requires SizedInt(val)
    ensures r == Some(IntOut(Python, val))
  {
    if val >= 0 {
      if val <= 23 {
        return Some(Pack(UINT, Imm, val));
      }
      if val <= 0xFF {
        return Some(Pack(UINT, One, val));
      }
      if val <= 0xFFFF {
        return Some(Pack(UINT, Two, val));
      }
      if val <= 0xFFFF_FFFF {
        return Some(Pack(UINT, Four, val));
      }
      if val <= 0xFFFF_FFFF_FFFF_FFFF {
        return Some(Pack(UINT, Eight, val));
      }
      var outb := DumpsBignumToBytearray(val);
      var head := EncodeTypeNum(BYTES, |outb|);
      if head.None? {
        return None;
      }
      return Some([TypeOr(TAG, TAG_BIGNUM)] + head.value + outb);
    }
    r := EncodeTypeNum(NEGINT, -1 - val);
  }

  // ---------- Values ----------

  method DumpsString(t: byte, val: seq<byte>) returns (r: Option<seq<byte>>)
    requires (t == BYTES || t == TEXT) && |val| < MAX_LENGTH
    ensures r == Some(Head(t, |val|) + val)
  {
    var head := EncodeTypeNum(t, |val|);
    if head.None? {
      return None;
    }
    return Some(head.value + val);
  }

  method Dumps(ob: Value, sort: bool) returns (r: Option<seq<byte>>)
    requires Eligible(sort, ob)
    ensures r == Out(Python, sort, ob)
    decreases ob, 3
  {
    match ob
    case Null => r := Some([TypeOr(SEVEN, 22)]);
    case Bool(b) => r := Some([TypeOr(SEVEN, if b then 21 else 20)]);
    case Bytes(data) => r := DumpsString(BYTES, data);
    case Text(data) => r := DumpsString(TEXT, data);
    case List(_, _) => r := DumpsArray(ob, sort);
    case Dict(_) => r := DumpsDict(ob, sort);
    case Float(payload) => r := Some([FloatHead(payload)] + payload);
    case Int(n) => r := DumpsInt(n);
    case Tag(_, _) => r := DumpsTag(ob, sort);
    case BareTag(_) => r := DumpsBareTag(ob, sort);
    case Instance(_, _) => r := None;
  }

  /** `assert val >= 0` raises a TypeError for None. */
  method DumpsBareTag(ob: Value, sort: bool) returns (r: Option<seq<byte>>)
    requires ob.BareTag? && Eligible(sort, ob)
    ensures r == Out(Python, sort, ob)
  {
    OutBareTag(Python, sort, ob);
    return None;
  }

  method DumpsTag(ob: Value, sort: bool) returns (r: Option<seq<byte>>)
    requires ob.Tag? && Eligible(sort, ob)
    ensures r == Out(Python, sort, ob)
    decreases ob, 0
  {
    OutTag(Python, sort, ob);
    var head := EncodeTypeNum(TAG, ob.num);
    if head.None? {
      return None;
    }
    var body := Dumps(ob.item, sort);
    if body.None? {
      return None;
    }
    return Some(head.value + body.value);
  }

  method DumpsArray(ob: Value, sort: bool) returns (r: Option<seq<byte>>)
    requires ob.List? && Eligible(sort, ob)
    ensures r == Out(Python, sort, ob)
    decreases ob, 1
  {
    OutList(Python, sort, ob);
    var arr := ob.items;
    var head := EncodeTypeNum(ARRAY, |arr|);
    if head.None? {
      return None;
    }
    var parts: seq<byte>, i := [], 0;
    assert arr[0..] == arr;
    Joins([], OutAll(Python, sort, arr));
    while i < |arr|
      invariant i <= |arr|
      invariant OutAll(Python, sort, arr) == Cat(Some(parts), OutAll(Python, sort, arr[i..]))
    {
      assert arr[i..][1..] == arr[i + 1..];
      var part := Dumps(arr[i], sort);
      if part.None? {
        return None;
      }
      CatTwice(Some(parts), part, OutAll(Python, sort, arr[i + 1..]));
      parts := parts + part.value;
      i := i + 1;
    }
    assert parts + [] == parts;
    return Some(head.value + parts);
  }

  lemma Joins(parts: seq<byte>, r: Option<seq<byte>>)
    requires parts == []
    ensures Cat(Some(parts), r) == r
  {
    if r.Some? {
      assert parts + r.value == r.value;
    }
  }

  method DumpsDict(ob: Value, sort: bool) returns (r: Option<seq<byte>>)
    requires ob.Dict? && Eligible(sort, ob)
    ensures r == Out(Python, sort, ob)
    decreases ob, 2
  {
    OutDict(Python, sort, ob);
    var head := EncodeTypeNum(MAP, |ob.entries|);
    if head.None? {
      return None;
    }
    if sort && !Comparable(ob.entries) {
      return None;  // sorted() raises a TypeError
    }
    var es := Visited(sort, ob.entries);
    SortMembers(ob.entries);
    var parts := DumpsPairs(ob, es, sort);
    if parts.None? {
      return None;
    }
    return Some(head.value + parts.value);
  }

  method DumpsPair(ghost ob: Value, e: Entry, sort: bool) returns (r: Option<seq<byte>>)
    requires Eligible(sort, e.key) && Eligible(sort, e.val)
    requires (ob decreases to e.key) && (ob decreases to e.val)
    ensures r == Cat(Out(Python, sort, e.key), Out(Python, sort, e.val))
    decreases ob, 0
  {
    var k := Dumps(e.key, sort);
    if k.None? {
      return None;
    }
    var v := Dumps(e.val, sort);
    if v.None? {
      return None;
    }
    return Some(k.value + v.value);
  }

  /** The loop over the items of a dict, whatever their order. */
  method DumpsPairs(ghost ob: Value, es: seq<Entry>, sort: bool) returns (r: Option<seq<byte>>)
    requires ob.Dict? && Eligible(sort, ob) && forall x :: x in es ==> x in ob.entries
    ensures r == OutAll(Python, sort, Flat(es))
    decreases ob, 1
  {
    ghost var spec := OutAll(Python, sort, Flat(es));
    var parts: seq<byte>, i := [], 0;
    assert es[0..] == es;
    Joins([], spec);
    while i < |es|
      invariant i <= |es|
      invariant spec == Cat(Some(parts), OutAll(Python, sort, Flat(es[i..])))
    {
      PairAhead(Python, sort, ob, es, i, es[i]);
      ghost var more := OutAll(Python, sort, Flat(es[i + 1..]));
      var part := DumpsPair(ob, es[i], sort);
      if part.None? {
        return None;
      }
      CatTwice(Some(parts), part, more);
      parts := parts + part.value;
      i := i + 1;
    }
    assert parts + [] == parts;
    return Some(parts);
  }
}
