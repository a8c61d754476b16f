/**
  The wire format itself: heads, data items as concrete syntax trees, the bytes they stand
  for and what they mean (section 2 of RFC 7049).  Besides the well-formed items the trees
  cover the malformed ones that one of the decoders reads.
 */
module Wire {
  import opened Prelude
  import opened BigEndian
  import opened Values
  import opened Floats
  import Biguint
  import Utf8

  // Major types, the top three bits of a head (cbor.h:7-14)
  const UINT: byte := 0x00
  const NEGINT: byte := 0x20
  const BYTES: byte := 0x40
  const TEXT: byte := 0x60
  const ARRAY: byte := 0x80
  const MAP: byte := 0xA0
  const TAG: byte := 0xC0
  const SEVEN: byte := 0xE0

  // Additional information, the low five bits (cbor.h:25-29)
  const UINT8_FOLLOWS: byte := 24
  const UINT16_FOLLOWS: byte := 25
  const UINT32_FOLLOWS: byte := 26
  const UINT64_FOLLOWS: byte := 27
  const VAR_FOLLOWS: byte := 31

  const BREAK: byte := 0xFF

  const TAG_DATE: nat := 1
  const TAG_BIGNUM: nat := 2
  const TAG_NEGBIGNUM: nat := 3
  const TAG_REGEX: nat := 35

  predicate IsMajor(t: byte) { t % 32 == 0 }

  function TypeBits(c: byte): byte { c / 32 * 32 }

  function InfoBits(c: byte): byte { c % 32 }

  function TypeOr(t: byte, info: byte): (c: byte)
    requires IsMajor(t) && info < 32
    ensures TypeBits(c) == t && InfoBits(c) == info
  {
    t + info
  }

  // ---------- Heads ----------

  /**
    How many bytes follow the first one of a head.  Additional information from 28 on is
    reserved, or stands for an indefinite length (section 2 of RFC 7049).
   */
  datatype Width = Imm | One | Two | Four | Eight | Reserved(info: byte)

  function Follow(w: Width): nat {
    match w case Imm => 0 case One => 1 case Two => 2 case Four => 4 case Eight => 8 case Reserved(_) => 0
  }

  predicate Fits(w: Width, n: nat) {
    match w
    case Imm => n <= 23
    case One => n <= 0xFF
    case Two => n <= 0xFFFF
    case Four => n <= 0xFFFF_FFFF
    case Eight => n < HEAD_LIMIT
    case Reserved(_) => false
  }

  /** The same with the reserved heads, which the C decoder takes for the number 0. */
  predicate Spells(w: Width, n: nat) {
    Fits(w, n) || (w.Reserved? && 28 <= w.info < 32 && n == 0)
  }

  /** Not the head of an indefinite length. */
  predicate Definite(w: Width) {
    w != Reserved(VAR_FOLLOWS)
  }

  lemma FitsPow(w: Width, n: nat)
    requires Fits(w, n) && !w.Imm?
    ensures n < Pow256(Follow(w))
  {
    Powers();
  }

  function Info(w: Width, n: nat): (i: byte)
    requires Spells(w, n)
    ensures i < 32 && (i < 28 <==> !w.Reserved?)
  {
    match w
    case Imm => n
    case One => UINT8_FOLLOWS
    case Two => UINT16_FOLLOWS
    case Four => UINT32_FOLLOWS
    case Eight => UINT64_FOLLOWS
    case Reserved(info) => info
  }

  /** The width that additional information announces. */
  function WidthOf(info: byte): Width
    requires info < 32
  {
    if info <= 23 then Imm
    else if info == UINT8_FOLLOWS then One
    else if info == UINT16_FOLLOWS then Two
    else if info == UINT32_FOLLOWS then Four
    else if info == UINT64_FOLLOWS then Eight
    else Reserved(info)
  }

  /** The head with major type `t` and number `n`, written with width `w`. */
  function HeadAt(t: byte, w: Width, n: nat): (h: seq<byte>)
    requires IsMajor(t) && Spells(w, n)
    ensures |h| == 1 + Follow(w)
  {
    [TypeOr(t, Info(w, n))] + ToBE(n, Follow(w))
  }

  const HEAD_LIMIT: nat := 0x1_0000_0000_0000_0000

  /** The width both encoders choose. */
  function Shortest(n: nat): (w: Width)
    requires n < HEAD_LIMIT
    ensures Fits(w, n)
    ensures forall w' :: Fits(w', n) ==> Follow(w) <= Follow(w')
    ensures forall w' :: Fits(w', n) && Follow(w') == Follow(w) ==> w' == w
  {
    if n <= 23 then Imm
    else if n <= 0xFF then One
    else if n <= 0xFFFF then Two
    else if n <= 0xFFFF_FFFF then Four
    else Eight
  }

  function Head(t: byte, n: nat): (h: seq<byte>)
    requires IsMajor(t) && n < HEAD_LIMIT
    ensures 1 <= |h| <= 9
  {
    HeadAt(t, Shortest(n), n)
  }

  // ---------- Data items ----------

  /** A piece of a chunked string; the C decoder takes a chunked text for a piece as well. */
  datatype Chunk = Chunk(w: Width, data: seq<byte>) | Nest(chunks: seq<Chunk>)

  /** A data item as written: every head width and every length style is explicit. */
  datatype DataItem =
    | WInt(neg: bool, w: Width, n: nat)
    | WStr(text: bool, w: Width, data: seq<byte>)
    | WChunked(text: bool, chunks: seq<Chunk>)
    | WGroup(isMap: bool, w: Width, items: seq<DataItem>)  // maps: keys and values alternate
    | WOpenGroup(isMap: bool, items: seq<DataItem>)        // ends with a break
    | WTag(w: Width, num: nat, item: DataItem)
    | WSimple(w: Width, code: byte)
    | WFloat(payload: seq<byte>)

  function StrType(text: bool): (t: byte)
    ensures IsMajor(t)
  {
    if text then TEXT else BYTES
  }

  function GroupType(isMap: bool): (t: byte)
    ensures IsMajor(t)
  {
    if isMap then MAP else ARRAY
  }

  function Count(isMap: bool, items: seq<DataItem>): nat {
    if isMap then |items| / 2 else |items|
  }

  /**
    An item that stands for bytes: a well-formed one, or one that some decoder reads
    although it is not.
   */
  predicate Readable(w: DataItem) {
    match w
    case WInt(_, wd, n) => Spells(wd, n)
    case WStr(_, wd, data) => StringReadable(wd, data)
    case WChunked(text, chunks) => ChunksReadable(text, chunks)
    case WGroup(isMap, wd, items) =>
      && (isMap ==> |items| % 2 == 0) && Definite(wd)
      && Spells(wd, Count(isMap, items))
      && forall i :: 0 <= i < |items| ==> Readable(items[i])
    case WOpenGroup(isMap, items) =>
      && (isMap ==> |items| % 2 == 0)
      && forall i :: 0 <= i < |items| ==> Readable(items[i])
    case WTag(wd, num, item) => Spells(wd, num) && Readable(item)
    case WSimple(wd, code) => (wd.Imm? || wd.One?) && 20 <= code <= 23
    case WFloat(payload) => IsPayload(payload)
  }

  predicate StringReadable(wd: Width, data: seq<byte>) {
    |data| < MAX_LENGTH && Spells(wd, |data|) && Definite(wd)
  }

  /** Only texts nest; a byte string of indefinite length inside another one counts as empty. */
  predicate ChunkReadable(text: bool, c: Chunk)
    decreases c
  {
    match c
    case Chunk(wd, data) => |data| < MAX_LENGTH && Spells(wd, |data|) && (text ==> Definite(wd))
    case Nest(chunks) => text && ChunksReadable(text, chunks)
  }

  predicate ChunksReadable(text: bool, cs: seq<Chunk>)
    decreases cs
  {
    forall i :: 0 <= i < |cs| ==> ChunkReadable(text, cs[i])
  }

  /** No definite container has more items than the loop counters of the C decoder can reach. */
  predicate Countable(w: DataItem) {
    match w
    case WGroup(isMap, _, items) =>
      Count(isMap, items) < MAX_COUNT && forall i :: 0 <= i < |items| ==> Countable(items[i])
    case WOpenGroup(_, items) => forall i :: 0 <= i < |items| ==> Countable(items[i])
    case WTag(_, _, item) => Countable(item)
    case _ => true
  }

  predicate CountableAll(ws: seq<DataItem>) {
    forall i :: 0 <= i < |ws| ==> Countable(ws[i])
  }

  predicate ReadableAll(ws: seq<DataItem>) {
    forall i :: 0 <= i < |ws| ==> Readable(ws[i])
  }

  /** A chunk as the standard has it. */
  predicate Plain(cs: seq<Chunk>) {
    forall i :: 0 <= i < |cs| ==> cs[i].Chunk? && !cs[i].w.Reserved?
  }

  /** The items of the standard: no reserved head, no nested chunks, simple values in one byte. */
  predicate WellFormed(w: DataItem) {
    && Readable(w)
    && match w
       case WInt(_, wd, _) => !wd.Reserved?
       case WStr(_, wd, _) => !wd.Reserved?
       case WChunked(_, chunks) => Plain(chunks)
       case WGroup(_, wd, items) => !wd.Reserved? && forall i :: 0 <= i < |items| ==> WellFormed(items[i])
       case WOpenGroup(_, items) => forall i :: 0 <= i < |items| ==> WellFormed(items[i])
       case WTag(wd, _, item) => !wd.Reserved? && WellFormed(item)
       case WSimple(wd, _) => wd.Imm?
       case WFloat(_) => true
  }

  predicate WellFormedAll(ws: seq<DataItem>) {
    forall i :: 0 <= i < |ws| ==> WellFormed(ws[i])
  }

  // ---------- Bytes ----------

  function FlattenChunk(text: bool, c: Chunk): (s: seq<byte>)
    requires ChunkReadable(text, c)
    ensures |s| > 0
    decreases c
  {
    match c
    case Chunk(wd, data) => HeadAt(StrType(text), wd, |data|) + data
    case Nest(chunks) => [TypeOr(StrType(text), VAR_FOLLOWS)] + FlattenChunks(text, chunks) + [BREAK]
  }

  function FlattenChunks(text: bool, cs: seq<Chunk>): seq<byte>
    requires ChunksReadable(text, cs)
    decreases cs
  {
    if cs == [] then [] else FlattenChunk(text, cs[0]) + FlattenChunks(text, cs[1..])
  }

  function Flatten(w: DataItem): (s: seq<byte>)
    requires Readable(w)
    ensures |s| > 0
  {
    match w
    case WInt(neg, wd, n) => HeadAt(if neg then NEGINT else UINT, wd, n)
    case WStr(text, wd, data) => FlattenChunk(text, Chunk(wd, data))
    case WChunked(text, chunks) =>
      [TypeOr(StrType(text), VAR_FOLLOWS)] + FlattenChunks(text, chunks) + [BREAK]
    case WGroup(isMap, wd, items) =>
      HeadAt(GroupType(isMap), wd, Count(isMap, items)) + FlattenAll(items)
    case WOpenGroup(isMap, items) =>
      [TypeOr(GroupType(isMap), VAR_FOLLOWS)] + FlattenAll(items) + [BREAK]
    case WTag(wd, num, item) => HeadAt(TAG, wd, num) + Flatten(item)
    case WSimple(wd, code) => HeadAt(SEVEN, wd, code)
    case WFloat(payload) => [FloatHead(payload)] + payload
  }

  function FloatHead(payload: seq<byte>): byte
    requires IsPayload(payload)
  {
    TypeOr(SEVEN, if |payload| == 2 then UINT16_FOLLOWS
                  else if |payload| == 4 then UINT32_FOLLOWS
                  else UINT64_FOLLOWS)
  }

  function FlattenAll(ws: seq<DataItem>): seq<byte>
    requires ReadableAll(ws)
  {
    if ws == [] then [] else Flatten(ws[0]) + FlattenAll(ws[1..])
  }

  lemma ShortHead(t: byte, n: byte)
    requires IsMajor(t) && n < 24
    ensures HeadAt(t, Imm, n) == [TypeOr(t, n)]
  {
  }

  /** A definite string and what follows it. */
  lemma StringBytes(text: bool, wd: Width, data: seq<byte>, rest: seq<byte>)
    requires ChunkReadable(text, Chunk(wd, data))
    ensures FlattenChunk(text, Chunk(wd, data)) + rest == HeadAt(StrType(text), wd, |data|) + (data + rest)
  {
  }

  /** The head of a container, and what follows it. */
  lemma GroupBytes(w: DataItem, rest: seq<byte>)
    requires Readable(w) && w.WGroup?
    ensures Flatten(w) + rest ==
            HeadAt(GroupType(w.isMap), w.w, Count(w.isMap, w.items)) + (FlattenAll(w.items) + rest)
  {
  }

  lemma OpenBytes(w: DataItem, rest: seq<byte>)
    requires Readable(w) && w.WOpenGroup?
    ensures Flatten(w) + rest == [TypeOr(GroupType(w.isMap), VAR_FOLLOWS)] + (FlattenAll(w.items) + ([BREAK] + rest))
  {
  }

  lemma ChunkedBytes(text: bool, cs: seq<Chunk>, rest: seq<byte>)
    requires ChunksReadable(text, cs)
    ensures Flatten(WChunked(text, cs)) + rest ==
            [TypeOr(StrType(text), VAR_FOLLOWS)] + (FlattenChunks(text, cs) + ([BREAK] + rest))
  {
  }

  lemma TagBytes(w: DataItem, rest: seq<byte>)
    requires Readable(w) && w.WTag?
    ensures Flatten(w) + rest == HeadAt(TAG, w.w, w.num) + (Flatten(w.item) + rest)
  {
  }

  /** The first of some items, and the others. */
  lemma FlattenAllBytes(ws: seq<DataItem>, tail: seq<byte>)
    requires ReadableAll(ws) && ws != []
    ensures Readable(ws[0]) && ReadableAll(ws[1..])
    ensures FlattenAll(ws) + tail == Flatten(ws[0]) + (FlattenAll(ws[1..]) + tail)
    ensures FlattenAll(ws) + tail != [] && (FlattenAll(ws) + tail)[0] == Flatten(ws[0])[0]
  {
  }

  lemma FlattenAllCons(w: DataItem, ws: seq<DataItem>)
    requires Readable(w) && ReadableAll(ws)
    ensures ReadableAll([w] + ws) && FlattenAll([w] + ws) == Flatten(w) + FlattenAll(ws)
  {
    assert ([w] + ws)[1..] == ws;
  }

  lemma FlattenChunksCons(text: bool, c: Chunk, cs: seq<Chunk>)
    requires ChunkReadable(text, c) && ChunksReadable(text, cs)
    ensures ChunksReadable(text, [c] + cs)
    ensures FlattenChunks(text, [c] + cs) == FlattenChunk(text, c) + FlattenChunks(text, cs)
    ensures Joined([c] + cs) == JoinedChunk(c) + Joined(cs)
  {
    assert ([c] + cs)[1..] == cs;
  }

  /** No item, and no chunk, starts with a break. */
  lemma NoBreak(w: DataItem)
    requires Readable(w)
    ensures Flatten(w)[0] != BREAK
  {
  }

  lemma NoBreakChunk(text: bool, c: Chunk)
    requires ChunkReadable(text, c)
    ensures FlattenChunk(text, c)[0] != BREAK && TypeBits(FlattenChunk(text, c)[0]) == StrType(text)
  {
  }

  // ---------- Meaning ----------

  /** Which reading of the standard: its own, or that of one of the decoders. */
  datatype Reading =
    | Standard
    | FromBuffer  // the C decoder over a bytes object
    | FromObject  // the C decoder over a file-like object
    | FromPython  // the Python decoder

  predicate InC(p: Reading) { p.FromBuffer? || p.FromObject? }

  /** The C decoder alone takes a reserved head for a number. */
  predicate Refuses(p: Reading, wd: Width) {
    wd.Reserved? && !InC(p)
  }

  /** The loop counters of the C decoder have 32 bits, and never reach a larger count. */
  predicate Endless(p: Reading, n: nat) {
    InC(p) && n >= MAX_COUNT
  }

  /** The value of a data item, or None where this reading rejects it. */
  function Meaning(p: Reading, w: DataItem): Option<Value> {
    match w
    case WInt(neg, wd, n) =>
      if Refuses(p, wd) then MissingNumber(p, neg, wd) else Some(Int(if neg then -1 - n else n))
    case WStr(text, wd, data) =>
      if Refuses(p, wd) then None else if text then TextOf(data) else Some(Bytes(data))
    case WChunked(text, chunks) =>
      if !InC(p) && !Plain(chunks) then None
      else if !text then
        // ObjectReader_read asserts that it was asked for something
        if p.FromObject? && !NoneEmpty(chunks) then None
        else Some(Bytes(Joined(chunks)))
      else if p.FromPython? || EachValid(chunks) then TextOf(Joined(chunks))
      else None
    case WGroup(isMap, wd, items) =>
      if Refuses(p, wd) || Endless(p, Count(isMap, items)) then None else Grouped(isMap, MeaningAll(p, items))
    case WOpenGroup(isMap, items) => Grouped(isMap, MeaningAll(p, items))
    case WTag(wd, num, item) =>
      if (num == TAG_BIGNUM || num == TAG_NEGBIGNUM) && InC(p) then
        // loads_bignum reads the payload length off the head byte alone
        if item.WStr? && !item.text && item.w.Imm? then Bignum(num, item.data) else None
      else if Refuses(p, wd) && !NoNumber(p, wd) then None
      else
        var v := Meaning(p, item);
        if v.None? then None
        else if NoNumber(p, wd) then Some(BareTag(v.value))
        else Tagged(p, num, v.value)
    case WSimple(wd, code) => if wd.One? && !InC(p) then None else SimpleOf(code)
    case WFloat(payload) => Some(Float(Double(payload)))
  }

  /** `_tag_aux` takes a head of indefinite length for one whose number is None. */
  predicate NoNumber(p: Reading, wd: Width) {
    p.FromPython? && wd == Reserved(VAR_FOLLOWS)
  }

  /** An integer without a number: `_loads_tb` hands out the None, but cannot subtract it. */
  function MissingNumber(p: Reading, neg: bool, wd: Width): Option<Value> {
    if NoNumber(p, wd) && !neg then Some(Null) else None
  }

  function MeaningAll(p: Reading, ws: seq<DataItem>): (r: Option<seq<Value>>)
    ensures r.Some? ==> |r.value| == |ws|
  {
    if ws == [] then Some([]) else Both(Meaning(p, ws[0]), MeaningAll(p, ws[1..]))
  }

  function Both(first: Option<Value>, more: Option<seq<Value>>): (r: Option<seq<Value>>)
    ensures r.Some? <==> first.Some? && more.Some?
    ensures r.Some? ==> r.value == [first.value] + more.value
  {
    if first.Some? && more.Some? then Some([first.value] + more.value) else None
  }

  lemma MeaningCons(p: Reading, w: DataItem, ws: seq<DataItem>)
    ensures MeaningAll(p, [w] + ws) == Both(Meaning(p, w), MeaningAll(p, ws))
  {
    assert ([w] + ws)[1..] == ws;
  }

  function TextOf(data: seq<byte>): Option<Value> {
    if Utf8.Valid(data) then Some(Text(data)) else None
  }

  function JoinedChunk(c: Chunk): seq<byte>
    decreases c
  {
    match c case Chunk(_, data) => data case Nest(chunks) => Joined(chunks)
  }

  function Joined(cs: seq<Chunk>): seq<byte>
    decreases cs
  {
    if cs == [] then [] else JoinedChunk(cs[0]) + Joined(cs[1..])
  }

  predicate NoneEmpty(cs: seq<Chunk>) {
    forall i :: 0 <= i < |cs| ==> JoinedChunk(cs[i]) != []
  }

  /** Every chunk is a text on its own. */
  predicate EachValid(cs: seq<Chunk>)
    decreases cs
  {
    forall i :: 0 <= i < |cs| ==> ChunkValid(cs[i])
  }

  predicate ChunkValid(c: Chunk)
    decreases c
  {
    match c case Chunk(_, data) => Utf8.Valid(data) case Nest(chunks) => EachValid(chunks)
  }

  lemma EachValidCons(cs: seq<Chunk>)
    requires cs != []
    ensures EachValid(cs) <==> ChunkValid(cs[0]) && EachValid(cs[1..])
  {
    assert forall i :: 1 <= i < |cs| ==> cs[i] == cs[1..][i - 1];
    assert forall i :: 0 <= i < |cs| - 1 ==> cs[1..][i] == cs[i + 1];
  }

  /** Decoding each chunk and joining the texts equals decoding the joined bytes. */
  lemma {:induction false} EachValidJoined(cs: seq<Chunk>)
    requires EachValid(cs)
    ensures Utf8.Valid(Joined(cs))
    decreases cs
  {
    if cs != [] {
      EachValidCons(cs);
      if cs[0].Nest? {
        EachValidJoined(cs[0].chunks);
      }
      EachValidJoined(cs[1..]);
      Utf8.ValidConcat(JoinedChunk(cs[0]), Joined(cs[1..]));
    }
  }

  function Grouped(isMap: bool, items: Option<seq<Value>>): Option<Value> {
    match items
    case None => None
    case Some(vs) =>
      if !isMap then Some(List(vs, false))
      else
        match Build(vs)
        case None => None
        case Some(es) => Some(Dict(es))
  }

  function Bignum(num: nat, data: seq<byte>): (r: Option<Value>)
    requires num == TAG_BIGNUM || num == TAG_NEGBIGNUM
  {
    Some(Int(if num == TAG_BIGNUM then FromBE(data) else -1 - FromBE(data)))
  }

  /** The tags for which the Python decoder calls `datetime` and `re`. */
  predicate LibraryTag(num: int) {
    num == TAG_DATE || num == TAG_REGEX
  }

  /**
    A tagged value: bignums become integers, in Python whatever their payload iterates
    over; what the library functions of the Python decoder return is no value of this model.
   */
  function Tagged(p: Reading, num: nat, v: Value): Option<Value> {
    if num == TAG_BIGNUM || num == TAG_NEGBIGNUM then
      if v.Bytes? then Bignum(num, v.data)
      else if p.FromPython? then WithSign(num, Biguint.Folded(v))
      else None
    else if p.FromPython? && LibraryTag(num) then None
    else Some(Tag(num, v))
  }

  function WithSign(num: nat, n: Option<int>): Option<Value> {
    match n case Some(k) => Some(Int(if num == TAG_BIGNUM then k else -1 - k)) case None => None
  }

  function SimpleOf(code: nat): Option<Value> {
    if code == 20 then Some(Bool(false))
    else if code == 21 then Some(Bool(true))
    else if code == 22 || code == 23 then Some(Null)
    else None
  }
}
