/**
  What the Python decoder makes of a sequence of bytes.  The methods of `PyDecoder` are
  proved to compute these functions.
 */
module PyGrammar {
  import opened Prelude
  import opened BigEndian
  import opened Values
  import opened Floats
  import opened Wire
  import Utf8

  /**
    Got: a result, the bytes left over and the number of bytes that the decoder says it
    read.  Raises: an exception.  Foreign: nothing but an unhashable key can keep the decoder
    from calling `datetime` or `re`, and what comes of that is outside this model.
   */
  datatype PyParsed<+T> = Got(value: T, rest: seq<byte>, count: nat) | Raises | Foreign

  /** A failure, whatever was to be read. */
  function Failed<T, U>(r: PyParsed<T>): (f: PyParsed<U>)
    requires !r.Got?
    ensures !f.Got?
  {
    if r.Foreign? then Foreign else Raises
  }

  predicate Moves<T>(r: PyParsed<T>, s: seq<byte>) {
    r.Got? ==> |r.rest| <= |s|
  }

  /** `fp.read(n)`: as much of it as there is. */
  function Upto(s: seq<byte>, n: nat): (k: nat)
    ensures k <= |s| && k <= n
  {
    if n <= |s| then n else |s|
  }

  /** `_tag_aux`, after the first byte; None stands for an indefinite length. */
  function TagAux(tb: byte, s: seq<byte>): (r: PyParsed<Option<nat>>)
    ensures Moves(r, s)
  {
    var info := InfoBits(tb);
    if info <= 23 then Got(Some(info), s, 1)
    else if info == UINT8_FOLLOWS then Unpack(s, 1)
    else if info == UINT16_FOLLOWS then Unpack(s, 2)
    else if info == UINT32_FOLLOWS then Unpack(s, 4)
    else if info == UINT64_FOLLOWS then Unpack(s, 8)
    else if info == VAR_FOLLOWS then Got(None, s, 1)
    else Raises
  }

  function Unpack(s: seq<byte>, k: nat): (r: PyParsed<Option<nat>>)
    ensures Moves(r, s)
  {
    if |s| < k then Raises else Got(Some(FromBE(s[..k])), s[k..], 1 + k)
  }

  function FloatAfter(tb: byte, s: seq<byte>): (r: PyParsed<Value>)
    requires UINT16_FOLLOWS <= InfoBits(tb) <= UINT64_FOLLOWS
    ensures Moves(r, s)
  {
    var k := if InfoBits(tb) == UINT16_FOLLOWS then 2 else if InfoBits(tb) == UINT32_FOLLOWS then 4 else 8;
    if |s| < k then Raises else Got(Float(Double(s[..k])), s[k..], 1 + k)
  }

  /** One chunk of an indefinite string of major type `t`; a short read goes unnoticed. */
  function ChunkAt(t: byte, tb: byte, s: seq<byte>): (r: PyParsed<seq<byte>>)
    ensures Moves(r, s)
  {
    match TagAux(tb, s)
    case Raises => Raises
    case Foreign => Foreign
    case Got(aux, s1, read) =>
      if TypeBits(tb) != t || aux.None? || aux.value >= MAX_LENGTH then Raises
      else
        var k := Upto(s1, aux.value);
        Got(s1[..k], s1[k..], read + aux.value)
  }

  /** The chunks up to the break. */
  function Chunks(t: byte, s: seq<byte>): (r: PyParsed<seq<byte>>)
    ensures Moves(r, s)
    decreases |s|
  {
    if s == [] then Raises
    else if s[0] == BREAK then Got([], s[1..], 1)
    else
      match ChunkAt(t, s[0], s[1..])
      case Raises => Raises
      case Foreign => Foreign
      case Got(ob, s1, read) =>
        match Chunks(t, s1)
        case Raises => Raises
        case Foreign => Foreign
        case Got(more, s2, total) =>
          Got(ob + more, s2, read + total)
  }

  /** `loads_bytes` */
  function LoadsBytes(t: byte, aux: Option<nat>, s: seq<byte>): (r: PyParsed<seq<byte>>)
    ensures Moves(r, s)
  {
    match aux
    case None => Chunks(t, s)
    case Some(n) =>
      if n >= MAX_LENGTH then Raises else Got(s[..Upto(s, n)], s[Upto(s, n)..], n)
  }

  function AsBytes(r: PyParsed<seq<byte>>, read: nat): (v: PyParsed<Value>)
    ensures v.Got? ==> r.Got? && v.rest == r.rest
  {
    match r
    case Got(data, rest, c) => Got(Bytes(data), rest, read + c)
    case Raises => Raises
    case Foreign => Foreign
  }

  function AsText(r: PyParsed<seq<byte>>, read: nat): (v: PyParsed<Value>)
    ensures v.Got? ==> r.Got? && v.rest == r.rest
  {
    match r
    case Got(data, rest, c) => if Utf8.Valid(data) then Got(Text(data), rest, read + c) else Raises
    case Raises => Raises
    case Foreign => Foreign
  }

  function AsGroup(isMap: bool, r: PyParsed<seq<Value>>, read: nat): (v: PyParsed<Value>)
    ensures v.Got? ==> r.Got? && v.rest == r.rest
  {
    match r
    case Got(vs, rest, c) =>
      (match Grouped(isMap, Some(vs)) case Some(v) => Got(v, rest, read + c) case None => Raises)
    case Raises => Raises
    case Foreign => Foreign
  }

  /** `tagify` */
  function AsTag(aux: Option<nat>, r: PyParsed<Value>, read: nat): (v: PyParsed<Value>)
    ensures v.Got? ==> r.Got? && v.rest == r.rest
  {
    match r
    case Raises => Raises
    case Foreign => Foreign
    case Got(ob, rest, c) =>
      if aux.None? then Got(BareTag(ob), rest, read + c)
      else if LibraryTag(aux.value) then Foreign
      else
        match Tagged(FromPython, aux.value, ob)
        case Some(v) => Got(v, rest, read + c)
        case None => Raises
  }

  /** `_loads` */
  function Item(s: seq<byte>): (r: PyParsed<Value>)
    ensures r.Got? ==> |r.rest| < |s|
    decreases |s|, 1
  {
    if s == [] then Raises else ItemAfter(s[0], s[1..])
  }

  /** `_loads_tb` */
  function ItemAfter(tb: byte, s: seq<byte>): (r: PyParsed<Value>)
    ensures Moves(r, s)
    decreases |s| + 1, 0
  {
    if TypeBits(tb) == SEVEN && UINT16_FOLLOWS <= InfoBits(tb) <= UINT64_FOLLOWS then FloatAfter(tb, s)
    else
      match TagAux(tb, s)
      case Raises => Raises
      case Foreign => Foreign
      case Got(aux, s1, read) => Body(tb, aux, s1, read)
  }

  function Body(tb: byte, aux: Option<nat>, s: seq<byte>, read: nat): (r: PyParsed<Value>)
    ensures Moves(r, s)
    decreases |s|, 5
  {
    var t := TypeBits(tb);
    if t == UINT then Got(if aux.Some? then Int(aux.value) else Null, s, read)
    else if t == NEGINT then
      if aux.Some? then Got(Int(-1 - aux.value), s, read) else Raises
    else if t == BYTES then AsBytes(LoadsBytes(BYTES, aux, s), read)
    else if t == TEXT then AsText(LoadsBytes(TEXT, aux, s), read)
    else if t == ARRAY || t == MAP then AsGroup(t == MAP, GroupItems(t == MAP, aux, s), read)
    else if t == TAG then AsTag(aux, Item(s), read)
    else if tb == 0xF5 then Got(Bool(true), s, read)
    else if tb == 0xF4 then Got(Bool(false), s, read)
    else if tb == 0xF6 || tb == 0xF7 then Got(Null, s, read)
    else Raises
  }

  function GroupItems(isMap: bool, aux: Option<nat>, s: seq<byte>): (r: PyParsed<seq<Value>>)
    ensures Moves(r, s)
    decreases |s|, 4
  {
    match aux
    case Some(n) => Items(s, if isMap then 2 * n else n)
    case None => if isMap then PairsToBreak(s) else ItemsToBreak(s)
  }

  function Items(s: seq<byte>, n: nat): (r: PyParsed<seq<Value>>)
    ensures Moves(r, s)
    decreases |s|, 2, n
  {
    if n == 0 then Got([], s, 0)
    else
      match Item(s)
      case Raises => Raises
      case Foreign => Foreign
      case Got(v, s1, c) =>
        match Items(s1, n - 1)
        case Raises => Raises
        case Foreign => Foreign
        case Got(vs, s2, cs) =>
          Got([v] + vs, s2, c + cs)
  }

  /** `_loads_var_array`: the first byte of each item is counted once more. */
  function ItemsToBreak(s: seq<byte>): (r: PyParsed<seq<Value>>)
    ensures Moves(r, s)
    decreases |s|, 2
  {
    if s == [] then Raises
    else if s[0] == BREAK then Got([], s[1..], 1)
    else
      match Item(s)
      case Raises => Raises
      case Foreign => Foreign
      case Got(v, s1, c) =>
        match ItemsToBreak(s1)
        case Raises => Raises
        case Foreign => Foreign
        case Got(vs, s2, cs) =>
          Got([v] + vs, s2, 1 + c + cs)
  }

  /** `_loads_var_map`: the first byte of each key is counted once more. */
  function PairsToBreak(s: seq<byte>): (r: PyParsed<seq<Value>>)
    ensures Moves(r, s)
    decreases |s|, 3
  {
    if s == [] then Raises
    else if s[0] == BREAK then Got([], s[1..], 1)
    else
      match PairAt(s)
      case Raises => Raises
      case Foreign => Foreign
      case Got(kv, s1, c) =>
        match PairsToBreak(s1)
        case Raises => Raises
        case Foreign => Foreign
        case Got(kvs, s2, cs) =>
          Got([kv.0, kv.1] + kvs, s2, 1 + c + cs)
  }

  /** A key and a value. */
  function PairAt(s: seq<byte>): (r: PyParsed<(Value, Value)>)
    ensures r.Got? ==> |r.rest| < |s|
    decreases |s|, 2
  {
    match Item(s)
    case Raises => Raises
    case Foreign => Foreign
    case Got(k, s1, c) =>
      match Item(s1)
      case Raises => Raises
      case Foreign => Foreign
      case Got(v, s2, d) =>
        Got((k, v), s2, c + d)
  }
}
