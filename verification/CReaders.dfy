/**
  The readers of the C decoder: one over a bytes object, one over a file-like object
  whose `read` may deliver fewer bytes than it was asked for.
 */
module CReaders {
  import opened Prelude
  import opened Values
  import opened CGrammar

  /** Outcome of a C call: a result, an exception, an endless loop, or an exception of the stream. */
  datatype Reply<+T> = Done(value: T) | Bad | Hung | Raised

  /** Failures are passed on as they are. */
  function Fault<T, U>(r: Reply<T>): (f: Reply<U>)
    requires !r.Done?
    ensures !f.Done? && (f.Bad? <==> r.Bad?) && (f.Hung? <==> r.Hung?)
  {
    if r.Bad? then Bad else if r.Hung? then Hung else Raised
  }

  /** A C call did what the grammar says. */
  ghost predicate Agrees<T>(r: Reply<T>, spec: Parsed<T>, left: seq<byte>) {
    match spec
    case Ok(v, rest) => r == Done(v) && left == rest
    case Fail => r.Bad?
    case Stall => r.Hung?
  }

  /**
    A file-like object that will deliver `data`.  Its call number `i` delivers `plan(i)`
    bytes where that is possible, at least one while any are left, and raises when `i`
    is the call `fault`.
   */
  class Stream {
    const data: seq<byte>
    const plan: nat -> nat
    const fault: Option<nat>
    var pos: nat
    var calls: nat

    constructor (data: seq<byte>, plan: nat -> nat, fault: Option<nat>)
      ensures this.data == data && this.plan == plan && this.fault == fault
      ensures Valid() && pos == 0 && calls == 0
    {
      this.data, this.plan, this.fault := data, plan, fault;
      pos, calls := 0, 0;
    }

    ghost predicate Valid()
      reads this
    {
      pos <= |data|
    }

    ghost function Left(): seq<byte>
      requires Valid()
      reads this
    {
      data[pos..]
    }

    method Read(n: nat) returns (r: Reply<seq<byte>>)
      requires Valid() && n > 0
      modifies this
      ensures Valid()
      ensures r.Raised? || r.Done?
      ensures r.Raised? ==> fault.Some? && pos == old(pos)
      ensures r.Done? ==> |r.value| <= n && old(Left()) == r.value + Left() && pos == old(pos) + |r.value|
      ensures r.Done? && r.value == [] ==> old(Left()) == []
    {
      var call := calls;
      calls := calls + 1;
      if fault == Some(call) {
        return Raised;
      }
      var k := plan(call);
      if k > n { k := n; }
      if k > |data| - pos { k := |data| - pos; }
      if k == 0 && pos < |data| { k := 1; }
      var bytes := data[pos..pos + k];
      pos := pos + k;
      return Done(bytes);
    }
  }

  /** What `read` hands out: a view, the stream's own bytes object, or the staging buffer. */
  datatype Loan = View(bytes: seq<byte>) | Kept(bytes: seq<byte>) | Staged(dst: array<byte>)

  function Contents(p: Loan): seq<byte>
    reads if p.Staged? then {p.dst} else {}
  {
    if p.Staged? then p.dst[..] else p.bytes
  }

  class BufferReader {
    const raw: seq<byte>
    var pos: nat
    var len: nat

    constructor (raw: seq<byte>)
      ensures Valid() && Left() == raw && this.raw == raw
    {
      this.raw := raw;
      pos, len := 0, |raw|;
    }

    ghost predicate Valid()
      reads this
    {
      pos + len == |raw|
    }

    ghost function Left(): seq<byte>
      requires Valid()
      reads this
    {
      raw[pos..]
    }

    method Read(n: nat) returns (r: Reply<Loan>)
      requires Valid()
      modifies this
      ensures Valid() && |Left()| <= |old(Left())|
      ensures r.Done? ==> r.value.View?
      ensures r.Done? || r.Bad?
      ensures match Take(Buffer, old(Left()), n)
              case Ok(v, rest) => r == Done(View(v)) && Left() == rest
              case Fail => r.Bad?
              case Stall => false
    {
      // A length of 2^63 or more turns negative in the cast to Py_ssize_t.
      if n < MAX_LENGTH && n <= len {
        assert raw[pos..][..n] == raw[pos..pos + n] && raw[pos..][n..] == raw[pos + n..];
        r := Done(View(raw[pos..pos + n]));
        pos, len := pos + n, len - n;
      } else {
        r := Bad;
      }
    }

    method Read1() returns (r: Reply<byte>)
      requires Valid()
      modifies this
      ensures Valid() && |Left()| <= |old(Left())|
      ensures Agrees(r, One(old(Left())), Left())
    {
      if len == 0 {
        return Bad;
      }
      r := Done(raw[pos]);
      pos, len := pos + 1, len - 1;
    }
  }

  class ObjectReader {
    const ob: Stream
    ghost const start: nat  // where the stream stood when the reader was made
    var bytes: Option<seq<byte>>
    var dst: array?<byte>
    var readCount: nat
    var external: bool

    constructor (ob: Stream)
      requires ob.Valid()
      ensures this.ob == ob && start == ob.pos
      ensures Valid() && Idle() && readCount == 0
    {
      this.ob, start := ob, ob.pos;
      bytes, dst, readCount, external := None, null, 0, false;
    }

    /** `read_count` is what has been taken from the stream. */
    ghost predicate Valid()
      reads this, ob
    {
      ob.Valid() && ob.pos == start + readCount && (external ==> ob.fault.Some?)
    }

    /** No buffer is out on loan and no exception of the stream is pending. */
    ghost predicate Idle()
      reads this
    {
      bytes.None? && dst == null && !external
    }

    ghost function Left(): seq<byte>
      requires Valid()
      reads this, ob
    {
      ob.Left()
    }

    /** The loan is the one the reader knows about. */
    ghost predicate Lent(p: Loan)
      reads this
    {
      match p
      case View(_) => false
      case Kept(b) => bytes == Some(b) && dst == null && !external
      case Staged(d) => dst == d && bytes.None? && !external
    }

    method Read(n: nat) returns (r: Reply<Loan>)
      requires Valid() && Idle()
      modifies this, ob
      ensures Valid() && |Left()| <= |old(Left())|
      ensures r.Raised? <==> external
      ensures r.Done? ==> Lent(r.value) && (r.value.Staged? ==> fresh(r.value.dst))
      ensures !r.Raised? ==>
              match Take(Object, old(Left()), n)
              case Ok(v, rest) => r.Done? && Contents(r.value) == v && Left() == rest
              case Fail => r.Bad?
              case Stall => r.Hung?
    {
      if n == 0 || n >= MAX_LENGTH {
        // The loop is not entered and its closing assert finds no buffer.
        return Bad;
      }
      ghost var all := Left();
      var rtotal := 0;
      while rtotal < n
        invariant Valid() && bytes.None? && !external
        invariant rtotal <= n && rtotal <= |all| && Left() == all[rtotal..]
        invariant rtotal == 0 ==> dst == null
        invariant rtotal > 0 ==> dst != null && fresh(dst) && dst.Length == n && dst[..rtotal] == all[..rtotal]
      {
        var got := ob.Read(n - rtotal);
        if got.Raised? {
          external := true;
          return Raised;
        }
        var retval := got.value;
        readCount := readCount + |retval|;
        if |retval| == n {
          // Everything in one call: keep the stream's own object.
          bytes, dst := Some(retval), null;
          return Done(Kept(retval));
        }
        if |retval| == 0 {
          // Nothing is left; the loop would go on asking.
          return Hung;
        }
        if dst == null {
          dst := new byte[n];
        }
        CopyInto(dst, rtotal, retval);
        assert all[..rtotal + |retval|] == all[..rtotal] + retval;
        rtotal := rtotal + |retval|;
      }
      assert dst[..] == dst[..n];
      return Done(Staged(dst));
    }

    method Read1() returns (r: Reply<byte>)
      requires Valid() && !external
      modifies this, ob
      ensures Valid() && |Left()| <= |old(Left())|
      ensures bytes == old(bytes) && dst == old(dst)
      ensures r.Raised? <==> external
      ensures !r.Raised? ==> Agrees(r, One(old(Left())), Left())
    {
      var got := ob.Read(1);
      if got.Raised? {
        external := true;
        return Raised;
      }
      readCount := readCount + |got.value|;
      if |got.value| == 1 {
        return Done(got.value[0]);
      }
      return Bad;
    }

    method ReturnBuffer(p: Loan)
      requires Valid() && Lent(p)
      modifies this
      ensures Valid() && Idle()
      ensures readCount == old(readCount)
    {
      if bytes.Some? && p.Kept? {
        bytes := None;
      } else if p.Staged? && p.dst == dst {
        dst := null;
      }
    }
  }

  /** `memcpy(dst + at, s, |s|)` */
  method CopyInto(dst: array<byte>, at: nat, s: seq<byte>)
    requires at + |s| <= dst.Length
    modifies dst
    ensures dst[..] == old(dst[..at]) + s + old(dst[at + |s|..])
  {
    var k := 0;
    while k < |s|
      invariant k <= |s|
      invariant forall j :: 0 <= j < dst.Length ==>
                  dst[j] == if at <= j < at + k then s[j - at] else old(dst[j])
    {
      dst[at + k] := s[k];
      k := k + 1;
    }
  }

  /** The two sets of functions that a `Reader` can carry. */
  datatype Functions = OverBuffer(b: BufferReader) | OverObject(o: ObjectReader)

  /** The reader that the decoder works with; `read`, `read1` and `return_buffer` dispatch. */
  class Reader {
    const via: Functions
    const mode: Mode
    ghost const repr: set<object>
    ghost var left: seq<byte>  // what is still to come
    ghost var idle: bool       // no buffer is out on loan
    ghost var raised: bool     // the stream raised

    constructor (via: Functions)
      requires via.OverBuffer? ==> via.b.Valid()
      requires via.OverObject? ==> via.o.Valid() && via.o.Idle()
      ensures Ready() && this.via == via && fresh(this)
      ensures mode == (if via.OverBuffer? then Buffer else Object)
      ensures left == (if via.OverBuffer? then via.b.Left() else via.o.Left())
      ensures repr == {this} + (if via.OverBuffer? then {via.b} else {via.o, via.o.ob})
    {
      this.via := via;
      mode := if via.OverBuffer? then Buffer else Object;
      repr := {this} + (if via.OverBuffer? then {via.b} else {via.o, via.o.ob});
      left := if via.OverBuffer? then via.b.Left() else via.o.Left();
      idle, raised := true, false;
    }

    ghost predicate Inv()
      reads this, repr
    {
      match via
      case OverBuffer(b) =>
        && mode == Buffer && {this, b} <= repr
        && b.Valid() && left == b.Left() && !raised
      case OverObject(o) =>
        && mode == Object && {this, o, o.ob} <= repr
        && o.Valid() && left == o.Left() && raised == o.external && (idle && !raised ==> o.Idle())
    }

    ghost predicate Valid()
      reads this, repr
    {
      this in repr && forall k {:trigger Unsealed(k)} :: Unsealed(k) ==> Inv()
    }

    ghost predicate Ready()
      reads this, repr
    {
      Valid() && idle && !raised
    }

    method Read(n: nat) returns (r: Reply<Loan>)
      requires Ready()
      modifies repr
      ensures Valid() && (r.Raised? <==> raised) && |left| <= |old(left)|
      ensures r.Done? ==> Lent(r.value)
      ensures !r.Raised? ==>
              match Take(mode, old(left), n)
              case Ok(v, rest) => r.Done? && Contents(r.value) == v && left == rest
              case Fail => r.Bad?
              case Stall => r.Hung?
    {
      assert Unsealed(0);
      match via {
        case OverBuffer(b) =>
          r := b.Read(n);
          left, idle := b.Left(), false;
        case OverObject(o) =>
          r := o.Read(n);
          left, idle, raised := o.Left(), false, o.external;
      }
    }

    /** The loan is the one that the reader is waiting for. */
    ghost predicate Lent(p: Loan)
      reads this, repr
    {
      this in repr &&
      forall k {:trigger Unsealed(k)} :: Unsealed(k) ==>
        match via
        case OverBuffer(b) => p.View?
        case OverObject(o) => o in repr && o.Lent(p)
    }

    method Read1() returns (r: Reply<byte>)
      requires Ready()
      modifies repr
      ensures Serves(this, r, One(old(left))) && |left| <= |old(left)|
      ensures old(left) != [] && !r.Raised? ==> |left| < |old(left)|
    {
      assert Unsealed(0);
      match via {
        case OverBuffer(b) =>
          r := b.Read1();
          left := b.Left();
        case OverObject(o) =>
          r := o.Read1();
          left, raised := o.Left(), o.external;
      }
    }

    method ReturnBuffer(p: Loan)
      requires Valid() && !raised && Lent(p)
      modifies repr
      ensures Ready() && left == old(left)
    {
      assert Unsealed(0);
      if via.OverObject? {
        via.o.ReturnBuffer(p);
      }
      idle := true;
    }
  }

  /**
    What every step of the decoder guarantees: unless the stream raised, it ended as the
    grammar says, and where it succeeded nothing is left on loan.
   */
  ghost predicate Serves<T>(rd: Reader, r: Reply<T>, spec: Parsed<T>)
    reads rd, rd.repr
  {
    && rd.Valid()
    && (r.Done? ==> rd.idle)
    && (r.Raised? <==> rd.raised)
    && (!r.Raised? ==> Agrees(r, spec, rd.left))
  }
}
