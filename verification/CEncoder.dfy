/**
  The C encoder: the same recursive walk counts the bytes when it has no buffer and
  writes them when it has one.
 */
module CEncoder {
  import opened Prelude
  import opened BigEndian
  import opened Values
  import opened Wire
  import opened Sorting
  import opened Encoding
  import opened Outcome
  import opened CReaders
  import Bits

  /** `s` with `x` written over it from `pos` on; everything else stays. */
  function Splice(s: seq<byte>, pos: nat, x: seq<byte>): (r: seq<byte>)
    requires pos + |x| <= |s|
    ensures |r| == |s|
  {
    s[..pos] + x + s[pos + |x|..]
  }

  lemma SpliceNothing(s: seq<byte>, pos: nat)
    requires pos <= |s|
    ensures Splice(s, pos, []) == s
  {
  }

  /** Writing on from where the last write ended. */
  lemma SpliceTwice(s: seq<byte>, pos: nat, a: seq<byte>, b: seq<byte>)
    requires pos + |a| + |b| <= |s|
    ensures Splice(Splice(s, pos, a), pos + |a|, b) == Splice(s, pos, a + b)
  {
    var m := Splice(s, pos, a);
    assert m[..pos + |a|] == s[..pos] + a;
    assert m[pos + |a| + |b|..] == s[pos + |a| + |b|..];
  }

  /** There is no buffer, or room for `n` bytes at `pos`. */
  predicate Room(out: array?<byte>, pos: nat, n: nat) {
    out != null ==> pos + n <= out.Length
  }

  function Frame(out: array?<byte>): set<object> {
    if out == null then {} else {out}
  }

  /** Where there is a buffer, `x` was written at `pos` and nothing else changed. */
  twostate predicate Wrote(out: array?<byte>, pos: nat, x: seq<byte>)
    requires Room(out, pos, |x|)
    reads Frame(out)
  {
    out != null ==> out[..] == Splice(old(out[..]), pos, x)
  }

  // ---------- Heads ----------

  lemma DivDiv(n: nat, p: nat)
    requires p >= 1
    ensures n / 256 / p == n / (256 * p)
  {
    var q := n / 256;
    var t, u := q / p, q % p;
    assert n == 256 * (p * t + u) + n % 256;
    assert 256 * (p * t) == (256 * p) * t;
    DivModUnique(n, 256 * p, t, 256 * u + n % 256);
  }

  /** The byte of `n` that `k` more bytes follow: `(n >> 8k) & 0xff`. */
  function ByteOf(n: nat, k: nat): byte {
    n / Pow256(k) % 256
  }

  /** Division by powers of 256 and the remainder pick out the base-256 digits. */
  lemma {:induction false} ToBEAt(n: nat, k: nat, i: nat)
    requires i < k
    ensures ToBE(n, k)[i] == ByteOf(n, k - 1 - i)
  {
    if i < k - 1 {
      ToBEAt(n / 256, k - 1, i);
      DivDiv(n, Pow256(k - 2 - i));
    }
  }

  lemma FourBytes(n: nat)
    ensures ToBE(n, 4) == [ByteOf(n, 3), ByteOf(n, 2), ByteOf(n, 1), ByteOf(n, 0)]
  {
    forall i | 0 <= i < 4 ensures ToBE(n, 4)[i] == ByteOf(n, 3 - i) {
      ToBEAt(n, 4, i);
    }
  }

  lemma EightBytes(n: nat)
    ensures ToBE(n, 8) == [ByteOf(n, 7), ByteOf(n, 6), ByteOf(n, 5), ByteOf(n, 4),
                           ByteOf(n, 3), ByteOf(n, 2), ByteOf(n, 1), ByteOf(n, 0)]
  {
    forall i | 0 <= i < 8 ensures ToBE(n, 8)[i] == ByteOf(n, 7 - i) {
      ToBEAt(n, 8, i);
    }
  }

  /** `out[pos] = b` */
  method Put(out: array<byte>, pos: nat, b: byte)
    requires pos < out.Length
    modifies out
    ensures out[..] == Splice(old(out[..]), pos, [b])
  {
    out[pos] := b;
  }

  /** Two assignments in a row. */
  method PutTwo(out: array<byte>, pos: nat, b1: byte, b0: byte)
    requires pos + 2 <= out.Length
    modifies out
    ensures out[..] == Splice(old(out[..]), pos, [b1, b0])
  {
    out[pos] := b1;
    out[pos + 1] := b0;
  }

  /** Four assignments in a row. */
  method PutFour(out: array<byte>, pos: nat, b3: byte, b2: byte, b1: byte, b0: byte)
    requires pos + 4 <= out.Length
    modifies out
    ensures out[..] == Splice(old(out[..]), pos, [b3, b2, b1, b0])
  {
    out[pos] := b3;
    out[pos + 1] := b2;
    out[pos + 2] := b1;
    out[pos + 3] := b0;
  }

  method TagU64Out(t: byte, aux: nat, out: array?<byte>, pos: nat) returns (pos': nat)
    requires IsMajor(t) && aux < HEAD_LIMIT && Room(out, pos, 9)
    modifies Frame(out)
    ensures pos' == pos + 9
    ensures Wrote(out, pos, HeadAt(t, Eight, aux))
  {
    if out != null {
      ghost var s := out[..];
      var c := Bits.JoinHead(t, UINT64_FOLLOWS);
      var hi := [ByteOf(aux, 7), ByteOf(aux, 6), ByteOf(aux, 5), ByteOf(aux, 4)];
      var lo := [ByteOf(aux, 3), ByteOf(aux, 2), ByteOf(aux, 1), ByteOf(aux, 0)];
      assert [c] + hi + lo == HeadAt(t, Eight, aux) by { EightBytes(aux); }
      Put(out, pos, c);
      PutFour(out, pos + 1, hi[0], hi[1], hi[2], hi[3]);
      SpliceTwice(s, pos, [c], hi);
      PutFour(out, pos + 5, lo[0], lo[1], lo[2], lo[3]);
      SpliceTwice(s, pos, [c] + hi, lo);
    }
    pos' := pos + 9;
  }

  /** The heads of each width, in the bytes that the shifts pick out. */
  lemma ShortHeads(t: byte, aux: nat)
    requires IsMajor(t)
    ensures aux <= 23 ==> [TypeOr(t, aux)] == Head(t, aux)
    ensures 23 < aux <= 0xFF ==> [TypeOr(t, UINT8_FOLLOWS)] + [aux] == Head(t, aux)
  {
    if aux <= 0xFF {
      OneByte(aux);
    }
  }

  lemma TwoByteHead(t: byte, aux: nat)
    requires IsMajor(t) && 0xFF < aux <= 0xFFFF
    ensures [TypeOr(t, UINT16_FOLLOWS)] + [ByteOf(aux, 1), ByteOf(aux, 0)] == Head(t, aux)
  {
    TwoBytes(aux);
    assert Pow256(1) == 256 * Pow256(0);
  }

  method TagAuxOut(t: byte, aux: nat, out: array?<byte>, pos: nat) returns (pos': nat)
    requires IsMajor(t) && aux < HEAD_LIMIT && Room(out, pos, |Head(t, aux)|)
    modifies Frame(out)
    ensures pos' == pos + |Head(t, aux)|
    ensures Wrote(out, pos, Head(t, aux))
  {
    if aux <= 23 {
      if out != null {
        var c := Bits.JoinHead(t, aux);
        ShortHeads(t, aux);
        Put(out, pos, c);
      }
      pos' := pos + 1;
    } else if aux <= 0xFF {
      if out != null {
        ghost var s := out[..];
        var c := Bits.JoinHead(t, UINT8_FOLLOWS);
        ShortHeads(t, aux);
        Put(out, pos, c);
        Put(out, pos + 1, aux);
        SpliceTwice(s, pos, [c], [aux]);
      }
      pos' := pos + 2;
    } else if aux <= 0xFFFF {
      if out != null {
        ghost var s := out[..];
        var c := Bits.JoinHead(t, UINT16_FOLLOWS);
        var b := [ByteOf(aux, 1), ByteOf(aux, 0)];
        TwoByteHead(t, aux);
        Put(out, pos, c);
        PutTwo(out, pos + 1, b[0], b[1]);
        SpliceTwice(s, pos, [c], b);
      }
      pos' := pos + 3;
    } else if aux <= 0xFFFF_FFFF {
      if out != null {
        ghost var s := out[..];
        var c := Bits.JoinHead(t, UINT32_FOLLOWS);
        var b := [ByteOf(aux, 3), ByteOf(aux, 2), ByteOf(aux, 1), ByteOf(aux, 0)];
        assert [c] + b == Head(t, aux) by { FourBytes(aux); }
        Put(out, pos, c);
        PutFour(out, pos + 1, b[0], b[1], b[2], b[3]);
        SpliceTwice(s, pos, [c], b);
      }
      pos' := pos + 5;
    } else {
      pos' := TagU64Out(t, aux, out, pos);
    }
  }

  /** A head and the bytes it announces: `tag_aux_out` and `memcpy`. */
  method StringOut(t: byte, data: seq<byte>, out: array?<byte>, pos: nat) returns (pos': nat)
    requires IsMajor(t) && |data| < MAX_LENGTH && Room(out, pos, |Head(t, |data|) + data|)
    modifies Frame(out)
    ensures pos' == pos + |Head(t, |data|) + data|
    ensures Wrote(out, pos, Head(t, |data|) + data)
  {
    ghost var head := Head(t, |data|);
    pos' := TagAuxOut(t, |data|, out, pos);
    if out != null {
      ghost var s := old(out[..]);
      CopyInto(out, pos', data);
      SpliceTwice(s, pos, head, data);
    }
    pos' := pos' + |data|;
  }

  // ---------- Bignums ----------

  function Reversed(s: seq<byte>): (r: seq<byte>)
    ensures |r| == |s|
  {
    if s == [] then [] else [s[|s| - 1]] + Reversed(s[..|s| - 1])
  }

  lemma ReversedSnoc(s: seq<byte>, b: byte)
    ensures Reversed(s + [b]) == [b] + Reversed(s)
  {
    assert (s + [b])[..|s|] == s;
  }

  /** After the low bytes `rev` of `val`, lowest first, `v` is left. */
  predicate LowFrom(val: nat, v: nat, rev: seq<byte>) {
    && |rev| <= C_BIGNUM_BYTES
    && LowBytes(val, C_BIGNUM_BYTES) == LowBytes(v, C_BIGNUM_BYTES - |rev|) + Reversed(rev)
  }

  lemma LowPass(val: nat, v: nat, rev: seq<byte>)
    requires LowFrom(val, v, rev) && v != 0 && |rev| < C_BIGNUM_BYTES
    ensures LowFrom(val, v / 256, rev + [v % 256])
  {
    var k := C_BIGNUM_BYTES - |rev|;
    ReversedSnoc(rev, v % 256);
    Assoc(LowBytes(v / 256, k - 1), [v % 256], Reversed(rev));
    assert LowBytes(v, k) == LowBytes(v / 256, k - 1) + [v % 256];
  }

  lemma LowStop(val: nat, v: nat, rev: seq<byte>)
    requires LowFrom(val, v, rev) && (v == 0 || |rev| == C_BIGNUM_BYTES)
    ensures LowBytes(val, C_BIGNUM_BYTES) == Reversed(rev)
  {
    assert [] + Reversed(rev) == Reversed(rev);
  }

  /** The first loop: how many bytes there are and, with a buffer, which, lowest first. */
  method RevBytes(val: nat, store: bool) returns (revbytes: array?<byte>, revbytepos: nat)
    ensures revbytepos == |LowBytes(val, C_BIGNUM_BYTES)|
    ensures store ==> revbytes != null && fresh(revbytes) && revbytes.Length == C_BIGNUM_BYTES
    ensures store ==> Reversed(revbytes[..revbytepos]) == LowBytes(val, C_BIGNUM_BYTES)
  {
    var v := val;
    ghost var rev: seq<byte> := [];
    revbytepos := 0;
    if store { revbytes := new byte[C_BIGNUM_BYTES]; } else { revbytes := null; }
    assert LowBytes(val, C_BIGNUM_BYTES) + [] == LowBytes(val, C_BIGNUM_BYTES);
    while v != 0 && revbytepos < C_BIGNUM_BYTES
      invariant revbytepos == |rev| && LowFrom(val, v, rev)
      invariant store ==> revbytes != null && fresh(revbytes) && revbytes.Length == C_BIGNUM_BYTES
      invariant store ==> revbytes[..revbytepos] == rev
      decreases v
    {
      LowPass(val, v, rev);
      if store {
        revbytes[revbytepos] := v % 256;
      }
      rev := rev + [v % 256];
      revbytepos := revbytepos + 1;
      v := v / 256;
    }
    LowStop(val, v, rev);
  }

  /** `w` starts the reverse of `r`; the first `i` bytes of `r` are still to come. */
  predicate ReversedFrom(r: seq<byte>, w: seq<byte>, i: nat) {
    i <= |r| && |w| + i == |r| && w + Reversed(r[..i]) == Reversed(r)
  }

  lemma ReversedStart(r: seq<byte>)
    ensures ReversedFrom(r, [], |r|)
  {
    assert r[..|r|] == r && [] + Reversed(r) == Reversed(r);
  }

  lemma ReversedPass(r: seq<byte>, w: seq<byte>, i: nat)
    requires i > 0 && ReversedFrom(r, w, i)
    ensures ReversedFrom(r, w + [r[i - 1]], i - 1)
  {
    var b, front := r[i - 1], r[..i - 1];
    assert r[..i] == front + [b];
    ReversedSnoc(front, b);
    assert w + ([b] + Reversed(front)) == w + [b] + Reversed(front);
  }

  lemma ReversedStop(r: seq<byte>, w: seq<byte>)
    requires ReversedFrom(r, w, 0)
    ensures w == Reversed(r)
  {
    assert r[..0] == [] && w + [] == w;
  }

  /** `cells` is `s` with `w` written at `pos`. */
  predicate Holding(cells: seq<byte>, s: seq<byte>, pos: nat, w: seq<byte>) {
    pos + |w| <= |s| && cells == Splice(s, pos, w)
  }

  lemma HoldingMore(cells: seq<byte>, s: seq<byte>, pos: nat, w: seq<byte>, b: byte)
    requires Holding(cells, s, pos, w) && pos + |w| < |s|
    ensures Holding(Splice(cells, pos + |w|, [b]), s, pos, w + [b])
  {
    SpliceTwice(s, pos, w, [b]);
  }

  /** One byte behind `w`. */
  method PutNext(out: array<byte>, p: nat, b: byte, ghost s: seq<byte>, ghost pos: nat, ghost w: seq<byte>)
    requires Holding(out[..], s, pos, w) && p == pos + |w| < |s|
    modifies out
    ensures Holding(out[..], s, pos, w + [b])
  {
    HoldingMore(out[..], s, pos, w, b);
    Put(out, p, b);
  }

  /** The second loop: the collected bytes from the last to the first. */
  method PutReversed(out: array<byte>, pos: nat, revbytes: array<byte>, n: nat)
    requires out != revbytes && n <= revbytes.Length && pos + n <= out.Length
    modifies out
    ensures out[..] == Splice(old(out[..]), pos, Reversed(old(revbytes[..n])))
  {
    ghost var s, r := out[..], revbytes[..n];
    var p, i := pos, n;
    ghost var w: seq<byte> := [];
    SpliceNothing(s, pos);
    ReversedStart(r);
    while i > 0
      invariant i <= n && p == pos + |w| && revbytes[..n] == r
      invariant ReversedFrom(r, w, i)
      invariant Holding(out[..], s, pos, w)
    {
      ReversedPass(r, w, i);
      i := i - 1;
      var b := revbytes[i];
      assert b == revbytes[..n][i] == r[i];
      PutNext(out, p, b, s, pos, w);
      w, p := w + [b], p + 1;
    }
    ReversedStop(r, w);
  }

  method DumpsBignum(num: byte, val: nat, out: array?<byte>, pos: nat) returns (pos': nat)
    requires num < 24 && SizedInt(val) && Room(out, pos, |BignumOut(C, num, val)|)
    modifies Frame(out)
    ensures pos' == pos + |BignumOut(C, num, val)|
    ensures Wrote(out, pos, BignumOut(C, num, val))
  {
    var revbytes, revbytepos := RevBytes(val, out != null);
    ghost var data := LowBytes(val, C_BIGNUM_BYTES);
    if out != null {
      ghost var s := out[..];
      var c := Bits.JoinHead(TAG, num);
      var l := Bits.JoinHead(BYTES, revbytepos);
      assert BignumOut(C, num, val) == [c] + [l] + data;
      Put(out, pos, c);
      Put(out, pos + 1, l);
      SpliceTwice(s, pos, [c], [l]);
      PutReversed(out, pos + 2, revbytes, revbytepos);
      SpliceTwice(s, pos, [c] + [l], data);
    }
    pos' := pos + 2 + revbytepos;
  }

  method IntOutC(n: int, out: array?<byte>, pos: nat) returns (pos': nat)
    requires SizedInt(n) && Room(out, pos, |IntOut(C, n)|)
    modifies Frame(out)
    ensures pos' == pos + |IntOut(C, n)|
    ensures Wrote(out, pos, IntOut(C, n))
  {
    if 0 - INT64_LIMIT <= n < INT64_LIMIT {
      if n >= 0 {
        assert IntOut(C, n) == Head(UINT, n);
        pos' := TagAuxOut(UINT, n, out, pos);
      } else {
        assert IntOut(C, n) == Head(NEGINT, -1 - n);
        pos' := TagAuxOut(NEGINT, -1 - n, out, pos);
      }
    } else if n < 0 {
      assert IntOut(C, n) == BignumOut(C, TAG_NEGBIGNUM, -1 - n);
      pos' := DumpsBignum(TAG_NEGBIGNUM, -1 - n, out, pos);
    } else {
      assert IntOut(C, n) == BignumOut(C, TAG_BIGNUM, n);
      pos' := DumpsBignum(TAG_BIGNUM, n, out, pos);
    }
  }

  // ---------- The walk ----------

  /** The outcome of a call that should write, or count, `spec` at `pos`. */
  twostate predicate Walked(err: bool, pos': nat, out: array?<byte>, pos: nat, spec: Option<seq<byte>>)
    reads Frame(out)
  {
    && (err <==> spec.None?)
    && (!err ==> pos' == pos + |spec.value| && Room(out, pos, |spec.value|) && Wrote(out, pos, spec.value))
  }

  /** The buffer, if there is one, was made for `spec`. */
  predicate Fits(out: array?<byte>, pos: nat, spec: Option<seq<byte>>) {
    out != null ==> spec.Some? && pos + |spec.value| <= out.Length
  }

  method InnerDumps(sort: bool, ob: Value, out: array?<byte>, pos: nat) returns (err: bool, pos': nat)
    requires Eligible(sort, ob) && Fits(out, pos, Out(C, sort, ob))
    modifies Frame(out)
    ensures Walked(err, pos', out, pos, Out(C, sort, ob))
    decreases ob, 3
  {
    err, pos' := false, pos;
    match ob
    case Null =>
      if out != null { Put(out, pos, TypeOr(SEVEN, 22)); }
      pos' := pos + 1;
    case Bool(b) =>
      if out != null { Put(out, pos, TypeOr(SEVEN, if b then 21 else 20)); }
      pos' := pos + 1;
    case Dict(_) =>
      err, pos' := DumpsDict(sort, ob, out, pos);
    case List(_, _) =>
      err, pos' := DumpsList(sort, ob, out, pos);
    case Int(n) =>
      pos' := IntOutC(n, out, pos);
    case Float(payload) =>
      FloatIsHead(payload);
      pos' := TagU64Out(SEVEN, FromBE(payload), out, pos);
    case Bytes(data) =>
      pos' := StringOut(BYTES, data, out, pos);
    case Text(data) =>
      pos' := StringOut(TEXT, data, out, pos);
    case Tag(_, _) =>
      err, pos' := DumpsTag(sort, ob, out, pos);
    case BareTag(_) =>
      err, pos' := DumpsTag(sort, ob, out, pos);
    case Instance(_, _) =>
      err := true;
  }

  /** The 64 bits of a float go out like the number of an eight-byte head. */
  lemma FloatIsHead(payload: seq<byte>)
    requires |payload| == 8
    ensures FromBE(payload) < HEAD_LIMIT
    ensures HeadAt(SEVEN, Eight, FromBE(payload)) == [FloatHead(payload)] + payload
  {
    FromBEBound(payload);
    Powers();
    FromBEInverse(payload);
  }

  method DumpsTag(sort: bool, ob: Value, out: array?<byte>, pos: nat) returns (err: bool, pos': nat)
    requires (ob.Tag? || ob.BareTag?) && Eligible(sort, ob) && Fits(out, pos, Out(C, sort, ob))
    modifies Frame(out)
    ensures Walked(err, pos', out, pos, Out(C, sort, ob))
    decreases ob, 0
  {
    ghost var s := Cells(out);
    if ob.BareTag? {
      // `tag_num` is no integer: nothing is written, and no error is set
      NoTagOut(sort, ob, out != null, s, pos);
      return false, pos;
    }
    ghost var head, x := TagPlan(sort, ob);
    if ob.num < 0 || ob.num >= INT64_LIMIT {
      return true, pos;
    }
    pos' := TagAuxOut(TAG, ob.num, out, pos);
    err, pos' := InnerDumps(sort, ob.item, out, pos');
    if !err && out != null {
      SpliceTwice(s, pos, head, x.value);
    }
  }

  lemma NoTagOut(sort: bool, ob: Value, has: bool, s: seq<byte>, pos: nat)
    requires ob.BareTag? && Valid(ob) && (has ==> pos <= |s|)
    ensures Out(C, sort, ob) == Some([]) && (has ==> Splice(s, pos, []) == s)
  {
    OutBareTag(C, sort, ob);
  }

  /** What is to be written of a tag. */
  lemma TagPlan(sort: bool, ob: Value) returns (head: seq<byte>, x: Option<seq<byte>>)
    requires ob.Tag? && Eligible(sort, ob)
    ensures x == Out(C, sort, ob.item) && Eligible(sort, ob.item)
    ensures 0 <= ob.num < INT64_LIMIT ==> head == Head(TAG, ob.num) && Out(C, sort, ob) == Cat(Some(head), x)
    ensures 0 <= ob.num < INT64_LIMIT && x.Some? ==> |Out(C, sort, ob).value| == |head| + |x.value|
    ensures ob.num < 0 || ob.num >= INT64_LIMIT ==> Out(C, sort, ob).None?
  {
    OutTag(C, sort, ob);
    head, x := if 0 <= ob.num < INT64_LIMIT then Head(TAG, ob.num) else [], Out(C, sort, ob.item);
    CatSizes(Some(head), x);
  }

  /** The bytes of the buffer, if there is one. */
  function Cells(out: array?<byte>): seq<byte>
    reads Frame(out)
  {
    if out == null then [] else out[..]
  }

  // Each of the facts below that are sealed has a seal of its own.

  predicate HalfwayOpen(k: int) { true }

  predicate TodoOpen(k: int) { true }

  predicate PairOpen(k: int) { true }

  /** `w` is done, `more` is to come, and with a buffer (`has`) all of it fits; sealed. */
  ghost predicate Halfway(has: bool, cells: seq<byte>, pos: nat, spec: Option<seq<byte>>,
                          s: seq<byte>, w: seq<byte>, more: Option<seq<byte>>)
  {
    forall k {:trigger HalfwayOpen(k)} :: HalfwayOpen(k) ==>
      && spec == Cat(Some(w), more)
      && (has ==> spec.Some? && pos + |spec.value| <= |s| && cells == Splice(s, pos, w))
  }

  lemma HalfwayStart(has: bool, s: seq<byte>, pos: nat, spec: Option<seq<byte>>)
    requires has ==> spec.Some? && pos + |spec.value| <= |s|
    ensures Halfway(has, s, pos, spec, s, [], spec)
  {
    if spec.Some? {
      assert [] + spec.value == spec.value;
    }
    if has {
      SpliceNothing(s, pos);
    }
  }

  /** There is room for the next object. */
  lemma HalfwayRoom(has: bool, cells: seq<byte>, pos: nat, spec: Option<seq<byte>>, s: seq<byte>,
                    w: seq<byte>, x: Option<seq<byte>>, more: Option<seq<byte>>)
    requires Halfway(has, cells, pos, spec, s, w, Cat(x, more))
    ensures has ==> x.Some? && pos + |w| + |x.value| <= |cells|
  {
    assert HalfwayOpen(0);
  }

  /** One more object was written, or counted. */
  lemma Further(has: bool, cells: seq<byte>, cells': seq<byte>, pos: nat, spec: Option<seq<byte>>, s: seq<byte>,
                w: seq<byte>, x: Option<seq<byte>>, more: Option<seq<byte>>)
    requires Halfway(has, cells, pos, spec, s, w, Cat(x, more))
    requires x.Some? && has ==> pos + |w| + |x.value| <= |cells| && cells' == Splice(cells, pos + |w|, x.value)
    ensures x.None? ==> spec.None?
    ensures x.Some? ==> Halfway(has, cells', pos, spec, s, w + x.value, more)
  {
    assert HalfwayOpen(0);
    if x.Some? {
      CatTwice(Some(w), x, more);
      if has {
        SpliceTwice(s, pos, w, x.value);
      }
    }
  }

  lemma HalfwayDone(has: bool, cells: seq<byte>, pos: nat, spec: Option<seq<byte>>, s: seq<byte>, w: seq<byte>)
    requires Halfway(has, cells, pos, spec, s, w, Some([]))
    ensures spec == Some(w) && (has ==> pos + |w| <= |s| && cells == Splice(s, pos, w))
  {
    assert HalfwayOpen(0);
    assert w + [] == w;
  }

  /** What is to come from the i-th item on; sealed. */
  ghost predicate Todo(sort: bool, items: seq<Value>, i: nat, todo: Option<seq<byte>>) {
    forall k {:trigger TodoOpen(k)} :: TodoOpen(k) ==>
      i <= |items| && todo == OutAll(C, sort, items[i..])
  }

  lemma NextItem(sort: bool, ob: Value, items: seq<Value>, i: nat, item: Value, todo: Option<seq<byte>>)
    returns (more: Option<seq<byte>>)
    requires ob.List? && Eligible(sort, ob) && items == ob.items && i < |items| && item == items[i]
    requires Todo(sort, items, i, todo)
    ensures Eligible(sort, item) && (ob decreases to item)
    ensures todo == Cat(Out(C, sort, item), more) && Todo(sort, items, i + 1, more)
  {
    assert items[i..][1..] == items[i + 1..];
    more := OutAll(C, sort, items[i + 1..]);
    assert TodoOpen(0);
  }

  /** The loop over the items of a list or tuple. */
  method DumpsItems(sort: bool, ghost ob: Value, items: seq<Value>, out: array?<byte>, pos: nat)
    returns (err: bool, pos': nat)
    requires ob.List? && Eligible(sort, ob) && items == ob.items && Fits(out, pos, OutAll(C, sort, items))
    modifies Frame(out)
    ensures Walked(err, pos', out, pos, OutAll(C, sort, items))
    decreases ob, 0
  {
    ghost var has, s := out != null, Cells(out);
    ghost var spec, w: seq<byte> := OutAll(C, sort, items), [];
    ghost var todo := spec;
    pos' := pos;
    var i := 0;
    assert items[0..] == items;
    HalfwayStart(has, s, pos, spec);
    while i < |items|
      invariant i <= |items| && pos' == pos + |w|
      invariant Halfway(has, Cells(out), pos, spec, s, w, todo) && Todo(sort, items, i, todo)
    {
      var item := items[i];
      ghost var more := NextItem(sort, ob, items, i, item, todo);
      ghost var cells, x := Cells(out), Out(C, sort, item);
      HalfwayRoom(has, cells, pos, spec, s, w, x, more);
      err, pos' := InnerDumps(sort, item, out, pos');
      Further(has, cells, Cells(out), pos, spec, s, w, x, more);
      if err {
        return;
      }
      w, todo := w + x.value, more;
      i := i + 1;
    }
    assert todo == Some([]) by { assert TodoOpen(0); }
    HalfwayDone(has, Cells(out), pos, spec, s, w);
    err := false;
  }

  method DumpsList(sort: bool, ob: Value, out: array?<byte>, pos: nat) returns (err: bool, pos': nat)
    requires ob.List? && Eligible(sort, ob) && Fits(out, pos, Out(C, sort, ob))
    modifies Frame(out)
    ensures Walked(err, pos', out, pos, Out(C, sort, ob))
    decreases ob, 1
  {
    OutList(C, sort, ob);
    ghost var s, head, x := Cells(out), Head(ARRAY, |ob.items|), OutAll(C, sort, ob.items);
    assert Out(C, sort, ob) == Cat(Some(head), x);
    pos' := TagAuxOut(ARRAY, |ob.items|, out, pos);
    err, pos' := DumpsItems(sort, ob, ob.items, out, pos');
    if !err && out != null {
      SpliceTwice(s, pos, head, x.value);
    }
  }

  /** What an entry is written as; sealed. */
  ghost predicate PairOut(sort: bool, ob: Value, e: Entry, x: Option<seq<byte>>) {
    forall k {:trigger PairOpen(k)} :: PairOpen(k) ==>
      && Eligible(sort, e.key) && Eligible(sort, e.val) && (ob decreases to e.key) && (ob decreases to e.val)
      && x == Cat(Out(C, sort, e.key), Out(C, sort, e.val))
  }

  /** The body of the loops of `dumps_dict`. */
  method DumpsPair(sort: bool, ghost ob: Value, e: Entry, ghost x: Option<seq<byte>>, out: array?<byte>, pos: nat)
    returns (err: bool, pos': nat)
    requires PairOut(sort, ob, e, x) && Fits(out, pos, x)
    modifies Frame(out)
    ensures Walked(err, pos', out, pos, x)
    decreases ob, 0
  {
    assert PairOpen(0);
    ghost var s, k, v := Cells(out), Out(C, sort, e.key), Out(C, sort, e.val);
    CatSizes(k, v);
    err, pos' := InnerDumps(sort, e.key, out, pos);
    if err {
      return;
    }
    err, pos' := InnerDumps(sort, e.val, out, pos');
    if !err && out != null {
      SpliceTwice(s, pos, k.value, v.value);
    }
  }

  lemma CatSizes(k: Option<seq<byte>>, v: Option<seq<byte>>)
    ensures Cat(k, v).Some? <==> k.Some? && v.Some?
    ensures Cat(k, v).Some? ==> Cat(k, v).value == k.value + v.value && |Cat(k, v).value| == |k.value| + |v.value|
  {
  }

  /** The loop over the entries, whatever their order. */
  method DumpsPairs(sort: bool, ghost ob: Value, es: seq<Entry>, out: array?<byte>, pos: nat)
    returns (err: bool, pos': nat)
    requires ob.Dict? && Eligible(sort, ob) && forall x :: x in es ==> x in ob.entries
    requires Fits(out, pos, OutAll(C, sort, Flat(es)))
    modifies Frame(out)
    ensures Walked(err, pos', out, pos, OutAll(C, sort, Flat(es)))
    decreases ob, 1
  {
    ghost var has, s := out != null, Cells(out);
    ghost var spec, w: seq<byte> := OutAll(C, sort, Flat(es)), [];
    ghost var todo := spec;
    pos' := pos;
    var i := 0;
    assert es[0..] == es;
    HalfwayStart(has, s, pos, spec);
    while i < |es|
      invariant i <= |es| && pos' == pos + |w|
      invariant Halfway(has, Cells(out), pos, spec, s, w, todo) && PairsTodo(sort, es, i, todo)
    {
      var e := es[i];
      ghost var x, more := NextPair(sort, ob, es, i, e, todo);
      ghost var cells := Cells(out);
      HalfwayRoom(has, cells, pos, spec, s, w, x, more);
      err, pos' := DumpsPair(sort, ob, e, x, out, pos');
      Further(has, cells, Cells(out), pos, spec, s, w, x, more);
      if err {
        return;
      }
      w, todo := w + x.value, more;
      i := i + 1;
    }
    assert todo == Some([]) by { assert TodoOpen(0); }
    HalfwayDone(has, Cells(out), pos, spec, s, w);
    err := false;
  }

  /** The same of the entries of a dict; sealed. */
  ghost predicate PairsTodo(sort: bool, es: seq<Entry>, i: nat, todo: Option<seq<byte>>) {
    forall k {:trigger TodoOpen(k)} :: TodoOpen(k) ==>
      i <= |es| && todo == OutAll(C, sort, Flat(es[i..]))
  }

  lemma NextPair(sort: bool, ob: Value, es: seq<Entry>, i: nat, e: Entry, todo: Option<seq<byte>>)
    returns (x: Option<seq<byte>>, more: Option<seq<byte>>)
    requires ob.Dict? && Eligible(sort, ob) && (forall x :: x in es ==> x in ob.entries) && i < |es| && e == es[i]
    requires PairsTodo(sort, es, i, todo)
    ensures PairOut(sort, ob, e, x) && todo == Cat(x, more) && PairsTodo(sort, es, i + 1, more)
  {
    PairAhead(C, sort, ob, es, i, e);
    x, more := Cat(Out(C, sort, e.key), Out(C, sort, e.val)), OutAll(C, sort, Flat(es[i + 1..]));
    assert TodoOpen(0);
  }

  /** What `dumps_dict` has to write, and in which order. */
  lemma DictPlan(sort: bool, ob: Value)
    requires ob.Dict? && Valid(ob)
    ensures ScalarKeys(ob.entries)
    ensures var es := Visited(sort, ob.entries);
            && (forall x :: x in es ==> x in ob.entries)
            && Out(C, sort, ob) ==
               if sort && !Comparable(ob.entries) then None
               else Cat(Some(Head(MAP, |es|)), OutAll(C, sort, Flat(es)))
  {
    OutDict(C, sort, ob);
    SortMembers(ob.entries);
  }

  method DumpsDict(sort: bool, ob: Value, out: array?<byte>, pos: nat) returns (err: bool, pos': nat)
    requires ob.Dict? && Eligible(sort, ob) && Fits(out, pos, Out(C, sort, ob))
    modifies Frame(out)
    ensures Walked(err, pos', out, pos, Out(C, sort, ob))
    decreases ob, 2
  {
    DictPlan(sort, ob);
    if sort && !Comparable(ob.entries) {
      // PyList_Sort sets a TypeError; the call as a whole then fails.
      return true, pos;
    }
    var es := Visited(sort, ob.entries);
    ghost var s, head, x := Cells(out), Head(MAP, |es|), OutAll(C, sort, Flat(es));
    CatSizes(Some(head), x);
    pos' := TagAuxOut(MAP, |es|, out, pos);
    err, pos' := DumpsPairs(sort, ob, es, out, pos');
    if !err && out != null {
      SpliceTwice(s, pos, head, x.value);
    }
  }

  /** `dumps`: counts, allocates exactly that much, and writes. */
  method CborDumps(sort: bool, ob: Value) returns (r: Option<seq<byte>>)
    requires Eligible(sort, ob)
    ensures r == if Accepts(C, sort, ob) then Some(Output(C, sort, ob)) else None
  {
    var err, outlen := InnerDumps(sort, ob, null, 0);
    if err {
      return None;
    }
    var out := new byte[outlen];
    ghost var x := Out(C, sort, ob).value;
    var err', _ := InnerDumps(sort, ob, out, 0);
    assert out[..] == x;
    if err' {
      return None;
    }
    return Some(out[..]);
  }
}
