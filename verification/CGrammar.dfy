/**
  What the C decoder makes of a sequence of bytes, independently of how a reader
  delivers them.  The methods of `CDecoder` are proved to compute these functions.
 */
module CGrammar {
  import opened Prelude
  import opened BigEndian
  import opened Values
  import opened Floats
  import opened Wire
  import Utf8

  /** Which reader the bytes come through. */
  datatype Mode = Buffer | Object

  /**
    Ok: a result and the bytes left over.  Fail: an exception.  Stall: the object
    reader keeps asking an exhausted stream for the rest of a block.
   */
  datatype Parsed<+T> = Ok(value: T, rest: seq<byte>) | Fail | Stall

  predicate Advances<T>(r: Parsed<T>, s: seq<byte>) {
    r.Ok? ==> |r.rest| <= |s|
  }

  /** `read1` */
  function One(s: seq<byte>): (r: Parsed<byte>)
    ensures r.Ok? ==> |r.rest| < |s|
  {
    if s == [] then Fail else Ok(s[0], s[1..])
  }

  /** `read` of a block of `n` bytes. */
  function Take(m: Mode, s: seq<byte>, n: nat): (r: Parsed<seq<byte>>)
    ensures Advances(r, s)
    ensures r.Ok? ==> |r.value| == n && s == r.value + r.rest
  {
    if n >= MAX_LENGTH then Fail
    else if m.Object? && n == 0 then Fail
    else if n <= |s| then Ok(s[..n], s[n..])
    else if m.Buffer? then Fail
    else Stall
  }

  /** `handle_info_bits` */
  function Number(m: Mode, info: byte, s: seq<byte>): (r: Parsed<nat>)
    requires info < 32
    ensures Advances(r, s)
    ensures r.Ok? ==> r.value < HEAD_LIMIT
  {
    if info <= 23 then Ok(info, s)
    else if info == UINT8_FOLLOWS then
      if |s| < 1 then Fail else Ok(s[0], s[1..])
    else if info == UINT16_FOLLOWS then
      if |s| < 2 then Fail else Ok((s[0] as int) * 256 + s[1] as int, s[2..])
    else if info == UINT32_FOLLOWS then Block(m, s, 4)
    else if info == UINT64_FOLLOWS then Block(m, s, 8)
    else Ok(0, s)
  }

  function Block(m: Mode, s: seq<byte>, k: nat): (r: Parsed<nat>)
    requires k == 4 || k == 8
    ensures Advances(r, s)
    ensures r.Ok? ==> r.value < HEAD_LIMIT
  {
    match Take(m, s, k)
    case Ok(raw, rest) =>
      FromBEBound(raw);
      Powers();
      Ok(FromBE(raw), rest)
    case Fail => Fail
    case Stall => Stall
  }

  /** `decodeFloat16`, `decodeFloat32` and `decodeFloat64` */
  function FloatItem(m: Mode, info: byte, s: seq<byte>): (r: Parsed<Value>)
    requires UINT16_FOLLOWS <= info <= UINT64_FOLLOWS
    ensures Advances(r, s)
  {
    if info == UINT16_FOLLOWS then
      if |s| < 2 then Fail else Ok(Float(Double(s[..2])), s[2..])
    else
      match Take(m, s, if info == UINT32_FOLLOWS then 4 else 8)
      case Ok(raw, rest) => Ok(Float(Double(raw)), rest)
      case Fail => Fail
      case Stall => Stall
  }

  /** A chunk of an indefinite byte string, whose first byte is `c`. */
  function ChunkAfter(m: Mode, c: byte, s: seq<byte>): (r: Parsed<seq<byte>>)
    ensures Advances(r, s)
  {
    if TypeBits(c) != BYTES then Fail
    else
      match Number(m, InfoBits(c), s)
      case Fail => Fail
      case Stall => Stall
      case Ok(n, s1) => Take(m, s1, n)
  }

  /** The chunks of an indefinite byte string, after its head. */
  function Chunks(m: Mode, s: seq<byte>): (r: Parsed<seq<byte>>)
    ensures Advances(r, s)
    decreases |s|
  {
    if s == [] then Fail
    else if s[0] == BREAK then Ok([], s[1..])
    else
      match ChunkAfter(m, s[0], s[1..])
      case Fail => Fail
      case Stall => Stall
      case Ok(blob, s1) =>
        match Chunks(m, s1)
        case Fail => Fail
        case Stall => Stall
        case Ok(more, s2) =>
          Ok(blob + more, s2)
  }

  /** A definite string: nothing is read when it is empty. */
  function Blob(m: Mode, n: nat, s: seq<byte>): (r: Parsed<seq<byte>>)
    ensures Advances(r, s)
  {
    if n == 0 then Ok([], s) else Take(m, s, n)
  }

  function AsText(r: Parsed<seq<byte>>): (t: Parsed<Value>)
    ensures t.Ok? ==> r.Ok? && t.rest == r.rest
  {
    match r
    case Ok(data, rest) => if Utf8.Valid(data) then Ok(Text(data), rest) else Fail
    case Fail => Fail
    case Stall => Stall
  }

  function AsBytes(r: Parsed<seq<byte>>): (t: Parsed<Value>)
    ensures t.Ok? ==> r.Ok? && t.rest == r.rest
  {
    match r
    case Ok(data, rest) => Ok(Bytes(data), rest)
    case Fail => Fail
    case Stall => Stall
  }

  /** `loads_bignum`: at most 23 bytes, counted by the head byte alone. */
  function BignumBody(info: byte, s: seq<byte>): (r: Parsed<nat>)
    ensures Advances(r, s)
  {
    if info < 24 && info <= |s| then Ok(FromBE(s[..info]), s[info..]) else Fail
  }

  function Signed(num: nat, r: Parsed<nat>): (t: Parsed<Value>)
    ensures t.Ok? ==> r.Ok? && t.rest == r.rest
  {
    match r
    case Ok(n, rest) => Ok(Int(if num == TAG_BIGNUM then n else -1 - n), rest)
    case Fail => Fail
    case Stall => Stall
  }

  function BignumItem(num: nat, s: seq<byte>): (r: Parsed<Value>)
    ensures Advances(r, s)
  {
    if s == [] || TypeBits(s[0]) != BYTES then Fail
    else Signed(num, BignumBody(InfoBits(s[0]), s[1..]))
  }

  /**
    How often the counting loop of a definite container runs over `s`.  Its counter has
    32 bits, so a larger count is never reached: every pass takes a byte, and the loop
    can only end by running out of them.
   */
  function Rounds(aux: nat, s: seq<byte>): nat {
    if aux < MAX_COUNT then aux else |s| + 1
  }

  /** `PyUnicode_Join` takes nothing but texts. */
  function JoinTexts(vs: seq<Value>): Option<seq<byte>> {
    if vs == [] then Some([])
    else if !vs[0].Text? then None
    else
      match JoinTexts(vs[1..])
      case None => None
      case Some(data) => Some(vs[0].data + data)
  }

  function AsJoined(r: Parsed<seq<Value>>): (t: Parsed<Value>)
    ensures t.Ok? ==> r.Ok? && t.rest == r.rest
  {
    match r
    case Ok(vs, rest) =>
      (match JoinTexts(vs) case Some(data) => Ok(Text(data), rest) case None => Fail)
    case Fail => Fail
    case Stall => Stall
  }

  function AsGroup(isMap: bool, r: Parsed<seq<Value>>): (t: Parsed<Value>)
    ensures t.Ok? ==> r.Ok? && t.rest == r.rest
  {
    match r
    case Ok(vs, rest) =>
      (match Grouped(isMap, Some(vs)) case Some(v) => Ok(v, rest) case None => Fail)
    case Fail => Fail
    case Stall => Stall
  }

  function AsTag(num: nat, r: Parsed<Value>): (t: Parsed<Value>)
    ensures t.Ok? ==> r.Ok? && t.rest == r.rest
  {
    match r
    case Ok(v, rest) => Ok(Tag(num, v), rest)
    case Fail => Fail
    case Stall => Stall
  }

  /** `inner_loads` */
  function Item(m: Mode, s: seq<byte>): (r: Parsed<Value>)
    ensures r.Ok? ==> |r.rest| < |s|
    decreases |s|, 1
  {
    if s == [] then Fail else ItemAfter(m, s[0], s[1..])
  }

  /** `inner_loads_c`: the item whose first byte is `c`. */
  function ItemAfter(m: Mode, c: byte, s: seq<byte>): (r: Parsed<Value>)
    ensures Advances(r, s)
    decreases |s| + 1, 0
  {
    var t, info := TypeBits(c), InfoBits(c);
    if t == SEVEN && UINT16_FOLLOWS <= info <= UINT64_FOLLOWS then FloatItem(m, info, s)
    else
      match Number(m, info, s)
      case Fail => Fail
      case Stall => Stall
      case Ok(aux, s1) => Body(m, t, info, aux, s1)
  }

  /** The switch over the major type, once the number `aux` is known. */
  function Body(m: Mode, t: byte, info: byte, aux: nat, s: seq<byte>): (r: Parsed<Value>)
    ensures Advances(r, s)
    decreases |s|, 4
  {
    if t == UINT then Ok(Int(aux), s)
    else if t == NEGINT then Ok(Int(-1 - aux), s)
    else if t == BYTES then
      AsBytes(if info == VAR_FOLLOWS then Chunks(m, s) else Blob(m, aux, s))
    else if t == TEXT then
      if info == VAR_FOLLOWS then AsJoined(ItemsToBreak(m, s)) else AsText(Blob(m, aux, s))
    else if t == ARRAY || t == MAP then
      AsGroup(t == MAP, GroupItems(m, t == MAP, info, aux, s))
    else if t == TAG then
      if aux == TAG_BIGNUM || aux == TAG_NEGBIGNUM then BignumItem(aux, s)
      else AsTag(aux, Item(m, s))
    else
      match SimpleOf(aux)
      case Some(v) => Ok(v, s)
      case None => Fail
  }

  /** The items of a container; a map has two for every entry. */
  function GroupItems(m: Mode, isMap: bool, info: byte, aux: nat, s: seq<byte>): (r: Parsed<seq<Value>>)
    ensures Advances(r, s)
    decreases |s|, 3
  {
    if info == VAR_FOLLOWS then ItemsToBreak(m, s)
    else Items(m, s, if isMap then 2 * Rounds(aux, s) else Rounds(aux, s))
  }

  /** `n` items in a row. */
  function Items(m: Mode, s: seq<byte>, n: nat): (r: Parsed<seq<Value>>)
    ensures Advances(r, s)
    ensures r.Ok? ==> |r.value| == n <= |s| - |r.rest|
    decreases |s|, 2, n
  {
    if n == 0 then Ok([], s)
    else
      match Item(m, s)
      case Fail => Fail
      case Stall => Stall
      case Ok(v, s1) =>
        match Items(m, s1, n - 1)
        case Fail => Fail
        case Stall => Stall
        case Ok(vs, s2) =>
          Ok([v] + vs, s2)
  }

  /** Items up to a break. */
  function ItemsToBreak(m: Mode, s: seq<byte>): (r: Parsed<seq<Value>>)
    ensures Advances(r, s)
    ensures r.Ok? ==> |r.value| < |s| - |r.rest|
    decreases |s|, 2
  {
    if s == [] then Fail
    else if s[0] == BREAK then Ok([], s[1..])
    else
      match Item(m, s)
      case Fail => Fail
      case Stall => Stall
      case Ok(v, s1) =>
        match ItemsToBreak(m, s1)
        case Fail => Fail
        case Stall => Stall
        case Ok(vs, s2) =>
          Ok([v] + vs, s2)
  }

  // ---------- One step of each loop ----------

  /**
    Seals a fact until `Unsealed` is mentioned, so that proofs about loops and readers
    do not drag the definitions behind it along.
   */
  predicate Unsealed(k: int) { true }

  /** A result that continues what has been collected so far. */
  function Prefix<T>(acc: seq<T>, r: Parsed<seq<T>>): Parsed<seq<T>> {
    match r
    case Ok(vs, rest) => Ok(acc + vs, rest)
    case Fail => Fail
    case Stall => Stall
  }

  lemma PrefixNone<T>(r: Parsed<seq<T>>)
    ensures Prefix([], r) == r
  {
    if r.Ok? {
      assert [] + r.value == r.value;
    }
  }

  lemma PrefixTwice<T>(acc: seq<T>, x: seq<T>, r: Parsed<seq<T>>)
    ensures Prefix(acc, Prefix(x, r)) == Prefix(acc + x, r)
  {
    if r.Ok? {
      assert acc + (x + r.value) == acc + x + r.value;
    }
  }

  /** A failure, whatever was to be read. */
  function Failure<T, U>(r: Parsed<T>): Parsed<U>
    requires !r.Ok?
  {
    if r.Fail? then Fail else Stall
  }

  lemma ChunksStep(m: Mode, s: seq<byte>)
    requires s != [] && s[0] != BREAK
    ensures var r := ChunkAfter(m, s[0], s[1..]);
            if r.Ok? then Chunks(m, s) == Prefix(r.value, Chunks(m, r.rest)) else Chunks(m, s) == Failure(r)
  {
  }

  lemma ItemsStep(m: Mode, s: seq<byte>, n: nat)
    requires n > 0
    ensures var r := Item(m, s);
            if r.Ok? then Items(m, s, n) == Prefix([r.value], Items(m, r.rest, n - 1))
            else Items(m, s, n) == Failure(r)
  {
  }

  lemma BreakStep(m: Mode, s: seq<byte>)
    requires s != [] && s[0] != BREAK
    ensures var r := ItemAfter(m, s[0], s[1..]);
            if r.Ok? then ItemsToBreak(m, s) == Prefix([r.value], ItemsToBreak(m, r.rest))
            else ItemsToBreak(m, s) == Failure(r)
  {
  }

  lemma BodyOfString(m: Mode, text: bool, info: byte, aux: nat, s: seq<byte>)
    ensures Body(m, StrType(text), info, aux, s) ==
            if text then
              (if info == VAR_FOLLOWS then AsJoined(ItemsToBreak(m, s)) else AsText(Blob(m, aux, s)))
            else AsBytes(if info == VAR_FOLLOWS then Chunks(m, s) else Blob(m, aux, s))
  {
  }

  lemma BodyOfGroup(m: Mode, isMap: bool, info: byte, aux: nat, s: seq<byte>)
    ensures Body(m, GroupType(isMap), info, aux, s) ==
            AsGroup(isMap, if info == VAR_FOLLOWS then ItemsToBreak(m, s)
                           else Items(m, s, if isMap then 2 * Rounds(aux, s) else Rounds(aux, s)))
  {
    assert Body(m, GroupType(isMap), info, aux, s) == AsGroup(isMap, GroupItems(m, isMap, info, aux, s));
  }

  lemma BodyOfTag(m: Mode, info: byte, num: nat, s: seq<byte>)
    ensures Body(m, TAG, info, num, s) ==
            if num == TAG_BIGNUM || num == TAG_NEGBIGNUM then BignumItem(num, s)
            else AsTag(num, Item(m, s))
  {
  }

  /** A break is no item. */
  lemma BreakIsNoItem(m: Mode, s: seq<byte>)
    requires s != [] && s[0] == BREAK
    ensures Item(m, s) == Fail
  {
    assert ItemAfter(m, BREAK, s[1..]) == Body(m, SEVEN, VAR_FOLLOWS, 0, s[1..]);
  }
}
