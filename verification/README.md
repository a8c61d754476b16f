# A verified model of the cbor codec

This project models the CBOR codec (RFC 7049) of `c/cbormodule.c` and `cbor/cbor.py`, the two
implementations of one `loads`/`dumps` interface, and the tag mapper of `cbor/tagmap.py` on top
of them. It states what each of them computes and proves how far the two implementations
understand each other: on every object, on every well-formed encoding, and on arbitrary bytes, of
which it says exactly what each decoder accepts and what it takes them for.

## How it is organised

| layer | modules | content |
|---|---|---|
| data | `Prelude`, `BigEndian`, `Biguint`, `Utf8`, `CodePoints`, `Values`, `Floats`, `Numbers`, `Wire` | octets and base-256 numbers; Python objects with dict semantics; doubles; heads, data items as concrete syntax trees (every head width, every definite or indefinite length, every split into chunks), the bytes they stand for (`Wire.Flatten`) and what they mean to a decoder (`Wire.Meaning`) |
| C decoder | `CGrammar`, `CReaders`, `CDecoder`, `Loading`, `Bits` | what the decoder makes of bytes (`CGrammar.Item`); the two reader classes over mutable state; the recursive descent as methods over a reader, proved to compute the grammar; `loads` and `load` |
| C encoder | `Encoding`, `Sorting`, `Outcome`, `CEncoder`, `Holes` | what an encoder writes (`Encoding.Enc`); the two-pass walk over an optional byte array, proved to count and to write exactly that; what tags without a number do to the output |
| Python | `PyGrammar`, `PyDecoder`, `PyEncoder` | the same for the second implementation, with its byte counts |
| theorems | `CCompleteness`, `PyCompleteness`, `CSoundness`, `PySoundness`, `PyTruncation`, `Delimiting`, `Readings`, `RoundTrip`, `Interop`, `Agreement`, `Recoding`, `Optimal`, `SortedOutput`, `SortedDecoding`, `Stability`, `Transport` | completeness of both decoders and its converse on arbitrary bytes, round trips for all pairings, agreement, canonical output, truncation, size bounds |
| bytes | `EncodedBytes`, `CDecodedBytes`, `PyDecodedBytes`, `SortOrder`, `Support` | the encoders and decoders once more, byte by byte, in the numbers of RFC 7049; the order of sorted keys and the objects that are taken, read off the objects themselves |
| tag mapper | `TagMapper`, `TagMapperHeap` | the rewrite on values and its round trip; decoding in place over lists and dicts on the heap |

Data items come in two kinds. `Wire.WellFormed` ones are those of the standard. `Wire.Readable`
ones are all that some decoder reads: beside the well-formed ones those with a reserved head
(additional information 28 to 31, which the C decoder takes for the number 0, and of which the
Python decoder takes 31 for "no number"), with a simple value in two bytes, or with texts of
indefinite length inside one another. The theorems about the decoders are about readable items,
and both soundness theorems say that nothing else is accepted.

Every method is proved against a function of its input (`Enc`, `CGrammar.Item`, `PyGrammar.Item`,
`TagMapper.Decode`, ...), and the theorems are about those functions. The C decoder has two
modes: `Buffer` over a bytes object and `Object` over a stream that may deliver fewer bytes than
it is asked for; nothing in the grammar depends on how the stream splits its bytes.

## Where the code falls short of a round trip

The code is modelled as it is; where a promise does not hold for all inputs, the exact
condition is proved.

* `dumps_bignum` in C stops after 23 bytes: an integer outside [-2^184, 2^184) is written as
  its low 184 bits (`Interop.BignumIsCut`). `RoundTrip.RoundTrips`, `Interop.DecodedByC` and
  `Interop.DecodedByPython` say, for every object that an encoder takes and every pairing, that
  the object comes back if and only if `RoundTrip.Survives` and `Encoding.HasItem` hold of it;
  `SortedDecoding.SortedDecodes` says the same with sort_keys.
* `loads_bignum` in C takes the payload length from the head byte alone, an indefinite text must
  be made of chunks that are texts on their own, and a loop counter has 32 bits:
  `Readings.FitsC`. The Python decoder turns tags 1 and 35 into library objects and refuses most
  malformed items: `Readings.FitsPython`. Of what one decoder accepts the other accepts exactly
  what is within its own limits (`Interop.DecodersAgree`, `Agreement.AcceptedByC`,
  `Agreement.AcceptedByPython`); on well-formed items tags 1 and 35 alone remain of the limits of
  Python (`Interop.WellFormedAgree`).
* An integer or a tag of indefinite length (0x1F, 0xDF in the place of a head) has the number 0
  for the C decoder and the number None for the Python decoder (`Agreement.VoidInteger`,
  `Agreement.VoidTag`). On arbitrary bytes that both accept they stop at the same byte, and the
  values are equal if no such integer or tag is among them, and only then unless the value of a
  dict was overwritten (`Agreement.BothAccept`; `Agreement.OverwrittenVoid` shows why).
* A `Tag` whose number is no integer is written as nothing by the C encoder, without an error,
  and what surrounds it lacks an item (`Encoding.HasItem`). `Tag()` makes such tags, and the
  Python decoder can return them. No decoder accepts what was written
  (`Interop.BareTagIsLost`); the Python encoder raises.
* `ObjectReader_read` refuses to read nothing, so over a stream an empty chunk of an indefinite
  byte string is an error: `Readings.NoEmptyChunk`, exactly (`Interop.ReadersAgree`).
* The byte count of the Python decoder is too large by one for every element of an indefinite
  array and every entry of an indefinite map: `PyCompleteness.CostLaw`.
* The Python decoder does not notice a short read inside a definite string.
  `PyTruncation.TruncationVerdict` says exactly which truncated items it accepts and as what;
  `PyTruncation.TruncationAccepted` is an instance.
* The Python decoder makes integers out of tags 2 and 3 over lists, dicts and empty texts as well
  (`Biguint.Folded`, `PyDecoder.Tagify`); the C decoder rejects them.

## Model

| member | source | states |
|---|---|---|
| `Bits.SplitHead` | c/cbormodule.c:214-215 | masking with 0xE0 and 0x1F splits a first byte into its major type and its additional information |
| `Bits.JoinHead` | c/cbormodule.c:975 | or-ing a major type with additional information gives the byte that splits into them |
| `BigEndian.MinBEInverse` | cbor/cbor.py:92-97 | folding the bytes of a bignum gives the number back, and its first byte is not zero |
| `BigEndian.MinBEUnique` | cbor/cbor.py:92-97 | the bytes written are the only ones for the number without a leading zero byte |
| `BigEndian.LowBytesValue` | c/cbormodule.c:1065-1079 | stopping after k bytes keeps exactly the number modulo 256^k |
| `BigEndian.LowBytesAll` | c/cbormodule.c:1065-1079 | below 256^k the bounded loop writes the same bytes as the unbounded one |
| `Biguint.OrIsBitwise` | cbor/cbor.py:483 | the or of two integers of any size and sign has exactly the bits that one of them has |
| `Biguint.FoldedBytes` | cbor/cbor.py:479-484 | over a byte string the loop of shifts and ors computes the big-endian value |
| `Biguint.FoldedWithin` | cbor/cbor.py:479-484 | over integers of up to m bytes, of either sign, the loop stays within m bytes and one for each of them |
| `Floats.LdexpKey` | c/cbormodule.c:113-116 | the double made of a mantissa and an exponent is exactly that number |
| `Floats.Half` | cbor/cbor.py:385-401 | the arithmetic on the two bytes of a half float gives the double of its payload; so in C |
| `Floats.DoubleOf` | c/cbormodule.c:98-153 | the double that a half, single or double float is decoded to is the number, or the infinity, that its payload stands for |
| `Numbers.SignKept` | c/cbormodule.c:120-122 | the sign of a half or single float goes over to its double, that of a zero as well |
| `Numbers.DoubleDetermined` | c/cbormodule.c:98-153 | the double of a payload is the only one with its number and its sign |
| `Numbers.ShortNaN` | cbor/cbor.py:391-401 | every NaN in a half or single float becomes the double 7F F8 00 00 00 00 00 00 |
| `Numbers.SamePayload` | cbor/cbor.py:402-409 | two doubles, no NaNs, that are one dict key and have one sign have the same eight bytes |
| `Numbers.KeysEqual` | c/cbormodule.c:410 | which objects are one dict key: None, the same text, the same bytes, the same number whatever its type, the same infinity; a NaN is no other key, not even itself |
| `Numbers.SmallKeys` | cbor/cbor.py:353 | as keys True is 1 and False is 0; integers are equal only to themselves |
| `Numbers.SmallFloats` | cbor/cbor.py:353 | as keys both zeros are 0 and 1.0 is 1 |
| `CodePoints.TextIsChars` | cbor/cbor.py:420-423 | a byte string passes for a text if and only if it encodes some Unicode scalar values |
| `Values.BuildDistinct` | c/cbormodule.c:410 | a dict filled key by key never holds two equal keys |
| `Values.BuildFlat` | c/cbormodule.c:469 | distinct hashable keys give a dict with those entries in reading order |
| `Values.BuildNoCollision` | cbor/cbor.py:353 | a dict as large as the number of entries read holds each of them unchanged |
| `Numbers.PutReplaces` | cbor/cbor.py:353 | a second entry with an equal key leaves the first key in its place and takes over the value |
| `Wire.Shortest` | c/cbormodule.c:969-1009 | the width chosen for a number is the narrowest that holds it, and the only one of that length |
| `CReaders.BufferReader.Read` | c/cbormodule.c:842-853 | a block is the next n bytes and the position moves behind them, or the call fails and nothing is read |
| `CReaders.BufferReader.Read1` | c/cbormodule.c:855-865 | the next byte, or failure at the end |
| `CReaders.ObjectReader.Read` | c/cbormodule.c:720-771 | whatever the sizes of the partial reads, the block handed out is the next n bytes of the stream, nothing more is taken, read_count grows by what was taken; an empty request fails and an exhausted stream is never left |
| `CReaders.ObjectReader.Read1` | c/cbormodule.c:772-798 | one byte of the stream, counted; an exception of the stream is remembered |
| `CReaders.ObjectReader.ReturnBuffer` | c/cbormodule.c:799-811 | afterwards neither the kept bytes object nor the staging buffer is outstanding |
| `CReaders.ObjectReader.constructor` | c/cbormodule.c:822-832 | a fresh reader has counted nothing and has no buffer outstanding |
| `CReaders.CopyInto` | c/cbormodule.c:757-764 | the copied bytes are in place and every other byte is as before |
| `CReaders.Reader.Read` | c/cbormodule.c:842-853 | the block that the grammar asks for, through either reader |
| `CReaders.Reader.Read1` | c/cbormodule.c:772-798 | one byte through either reader; on success or failure a nonempty input gets shorter unless the stream raised |
| `CDecoder.HandleInfoBits` | c/cbormodule.c:157-196 | reads the number of a head in any of its five widths |
| `CDecoder.DecodeFloat` | c/cbormodule.c:98-153 | reads exactly the payload of a half, single or double float and returns the double for it (`Floats.DoubleOf`) |
| `CDecoder.LoadVarBytes` | c/cbormodule.c:261-310 | an indefinite byte string is the concatenation of its chunks, in order, up to the break |
| `CDecoder.Assemble` | c/cbormodule.c:293-310 | the parts are copied one after the other into a block of exactly their total size |
| `CDecoder.LoadText` | c/cbormodule.c:330-367 | definite texts and joined indefinite ones, rejected when not valid |
| `CDecoder.LoadArray` | c/cbormodule.c:368-397 | definite and indefinite arrays hold their items in order |
| `CDecoder.LoadItems` | c/cbormodule.c:385-393 | the loop with its 32-bit counter reads exactly the announced items, or runs out of bytes |
| `CDecoder.LoadMap` | c/cbormodule.c:398-430 | definite and indefinite maps: the last value of a key wins, an unhashable key ends in failure |
| `CDecoder.LoadPairs` | c/cbormodule.c:419-425 | the keys and values read, in order, and the dict made of them |
| `CDecoder.LoadsKv` | c/cbormodule.c:463-473 | a key and then its value |
| `CDecoder.LoadsBignum` | c/cbormodule.c:475-508 | folds exactly as many bytes as the head byte announces, up to 23 |
| `CDecoder.LoadsTag` | c/cbormodule.c:524-577 | tags 2 and 3 become integers, every other tag a Tag around the next item |
| `CDecoder.InnerLoadsC` | c/cbormodule.c:209-461 | computes the grammar for every first byte, over either reader |
| `CDecoder.InnerLoads` | c/cbormodule.c:200-207 | computes the grammar; never puts bytes back, and takes one at least from a nonempty input unless the stream raised |
| `CGrammar.BreakIsNoItem` | cbor/tests/test_cbor.py:260-265 | a lone break byte does not decode |
| `CDecodedBytes.DecodesInt` | c/cbormodule.c:240-259 | integers are a first byte from 00 or 20 on with the number in it or in the 1, 2, 4 or 8 bytes behind 18, 19, 1A, 1B or 38 to 3B |
| `CDecodedBytes.DecodesString` | c/cbormodule.c:260-367 | 40 and 60 with the length, in any of the five widths, start byte strings and texts; a text must be one |
| `CDecodedBytes.RejectsString` | c/cbormodule.c:841-866 | strings of 2^63 bytes and more, or of more bytes than there are, give nothing |
| `CDecodedBytes.DecodesArray` | c/cbormodule.c:368-397 | 80 with the length starts an array of so many items, below 2^32; from there on it gives nothing |
| `CDecodedBytes.DecodesMap` | c/cbormodule.c:398-430 | A0 with the number of entries starts a map of twice as many items, below 2^32 |
| `CDecodedBytes.DecodesRow` | c/cbormodule.c:385-393 | items in a row are read one behind the other; FF ends items of open number, and is no item |
| `CDecodedBytes.DecodesTag` | c/cbormodule.c:524-577 | C0 with the number starts a tag around the next item |
| `CDecodedBytes.DecodesBignum` | c/cbormodule.c:475-508 | tags 2 and 3 in front of a byte string of less than 24 bytes are the number and its complement; in front of anything else they fail |
| `CDecodedBytes.DecodesSimple` | c/cbormodule.c:433-452 | F4 is False, F5 True, F6 and F7 None, behind F8 as well; no other such byte is anything |
| `CDecodedBytes.DecodesFloat` | c/cbormodule.c:98-153 | F9, FA and FB start half, single and double floats |
| `CDecodedBytes.DecodesOpen` | c/cbormodule.c:241-430 | 5F, 7F, 9F and BF start byte strings, texts, arrays and maps of open length |
| `CDecodedBytes.DecodesChunks` | c/cbormodule.c:261-310 | the chunks of a byte string of open length are byte strings, joined in order, up to FF |
| `PyDecodedBytes.DecodesInt` | cbor/cbor.py:413-416 | the same for the Python decoder, with the number of bytes reported; 1F is None and 3F raises |
| `PyDecodedBytes.DecodesString` | cbor/cbor.py:454-459 | 40 and 60 with the length start byte strings and texts, of as many bytes as there are |
| `PyDecodedBytes.DecodesArray` | cbor/cbor.py:339-345 | 80 with the length starts an array of so many items |
| `PyDecodedBytes.DecodesMap` | cbor/cbor.py:346-354 | A0 with the number of entries starts a map of twice as many items |
| `PyDecodedBytes.DecodesRow` | cbor/cbor.py:339-345 | items in a row are read one behind the other and their counts added up |
| `PyDecodedBytes.DecodesToBreak` | cbor/cbor.py:314-335 | FF ends items, and pairs of them, of open number; the first byte of each item, or of each key, is counted twice |
| `PyDecodedBytes.DecodesTag` | cbor/cbor.py:494-511 | C0 with the number starts a tag: 2 and 3 make integers, 1 and 35 go to a library, all others are objects; DF is one without a number |
| `PyDecodedBytes.FoldsContent` | cbor/cbor.py:479-484 | what tags 2 and 3 make of bytes, empty and other texts, and lists and dicts of one element; everything else raises |
| `PyDecodedBytes.DecodesSimple` | cbor/cbor.py:442-451 | F4 is False, F5 True, F6 and F7 None; no other such byte is anything |
| `PyDecodedBytes.DecodesFloat` | cbor/cbor.py:385-409 | F9, FA and FB start half, single and double floats |
| `PyDecodedBytes.DecodesOpen` | cbor/cbor.py:417-431 | 5F, 7F, 9F and BF start byte strings, texts, arrays and maps of open length |
| `PyDecodedBytes.DecodesChunk` | cbor/cbor.py:460-475 | a chunk is a string of the kind, of as many bytes as there are, in front of the chunks behind it |
| `PyDecodedBytes.EndsChunks` | cbor/cbor.py:460-475 | FF ends the chunks; anything that is no string of the kind raises |
| `CCompleteness.ReadItem` | c/cbormodule.c:209-461 | on the bytes of any item, malformed ones that it reads included, followed by anything, the decoder returns what the item means to it and stops exactly behind it; where the item means nothing to it, it fails, or for a container of 2^32 entries and more does not return a value (`CSoundness.AcceptedAs`) |
| `CCompleteness.ReadNumber` | c/cbormodule.c:157-196 | every head is read back, whatever its width; a reserved one as 0 |
| `CCompleteness.ReadByteChunks` | c/cbormodule.c:261-310 | the chunks of a byte string come back joined, however they were split |
| `Loading.CborLoads` | c/cbormodule.c:581-612 | decodes the item at the start of the bytes; no bytes at all are an error |
| `Loading.CborLoad` | c/cbormodule.c:902-947 | takes exactly the bytes of one item from the stream; read_count is what was taken; the end-of-file verdict comes exactly when the stream was empty at the start |
| `Loading.LoadsItems` | c/cbormodule.c:936-944 | repeated load over any sequence of items gives their values in order and then end of file |
| `Loading.LoadsStream` | cbor/tests/test_cbor.py:242-258 | repeated load over concatenated encodings by either encoder gives the objects in order and then end of file |
| `Loading.PyLoadsItems` | cbor/cbor.py:267-271 | the Python load does the same over any sequence of items |
| `Loading.PyLoadsStream` | cbor/tests/test_cbor.py:242-258 | and over concatenated encodings by either encoder |
| `CEncoder.TagU64Out` | c/cbormodule.c:951-966 | with a buffer writes the nine bytes of the head and no others; without one counts nine |
| `CEncoder.TagAuxOut` | c/cbormodule.c:969-1009 | writes, or counts, the shortest head |
| `CEncoder.ToBEAt` | c/cbormodule.c:956-963 | dividing by powers of 256 and taking remainders, which stands for the shifts and masks of the source, gives the bytes of the big-endian form |
| `CEncoder.RevBytes` | c/cbormodule.c:1065-1079 | the collected bytes reversed are the low bytes of the number |
| `CEncoder.PutReversed` | c/cbormodule.c:1085-1090 | the bytes go out from the last to the first, and nothing else changes |
| `CEncoder.DumpsBignum` | c/cbormodule.c:1053-1101 | tag, length and payload of a bignum, counted or written |
| `CEncoder.DumpsTag` | c/cbormodule.c:1103-1158 | tag numbers in [0, 2^63) with their content, other integers are an error; for a number that is no integer nothing is written and no error is set |
| `CEncoder.DumpsItems` | c/cbormodule.c:1187-1200 | the items of a list or tuple are counted, or written one behind the other, in order |
| `CEncoder.DumpsDict` | c/cbormodule.c:1013-1050 | head, then keys and values alternating in insertion or sorted order; without a NaN among several keys where they are sorted |
| `CEncoder.InnerDumps` | c/cbormodule.c:1163-1282 | without a buffer the position advances by the length of the encoding; with one exactly these bytes are written at the position, the rest of the buffer is untouched and the call succeeds |
| `CEncoder.CborDumps` | c/cbormodule.c:1300-1354 | the second pass fills a buffer of the counted size exactly; the result is the encoding, or an error exactly where some object, tag number or key order is unsupported; with sort_keys for objects without a NaN among several keys |
| `EncodedBytes.EncodesLeaf` | c/cbormodule.c:1163-1252 | both encoders write F6, F4, F5 for None, False, True, FB and eight bytes for a float, and behind the length, from 40 or 60 on, the bytes of a string |
| `EncodedBytes.EncodesNode` | c/cbormodule.c:1013-1200 | behind 80, A0 or C0 with the number of items, of entries or of the tag comes what is inside |
| `EncodedBytes.EncodesRow` | c/cbormodule.c:1187-1200 | one item behind the other; one entry behind the other, the key first |
| `EncodedBytes.EncodesInt` | c/cbormodule.c:1207-1231 | integers from 00 and 20 on; bignums behind C2 and C3, in C from 2^63 on, in Python from 2^64 on, and below -2^63 in both |
| `EncodedBytes.Payload` | c/cbormodule.c:1065-1079 | the payload of a bignum is the number without a leading zero byte, in C no more than its 23 lowest bytes |
| `EncodedBytes.EncodesLimits` | cbor/cbor.py:71-88 | the bytes of the integers on both sides of 2^63 and of -2^63 |
| `Support.AcceptsExactly` | c/cbormodule.c:1163-1282 | an encoder takes exactly the objects in which there is no instance of an unknown class and no tag whose number it cannot write: in C integers outside [0, 2^63), in Python all but those in [0, 2^64) |
| `Support.AcceptsSorted` | c/cbormodule.c:1024-1027 | with sort_keys it takes those of them in which the keys of every dict are all numbers, all texts or all byte strings, or a single key |
| `Support.ValidExactly` | cbor/cbor.py:210-228 | what is asked of the objects that are encoded, said of everything inside them: sizes below 2^63, texts that are texts, doubles, dicts with simple keys of which no two are equal |
| `Support.OrderableExactly` | cbor/cbor.py:159-171 | with sort_keys: no dict of several entries has a NaN among its keys |
| `PyEncoder.DumpsBignumToBytearray` | cbor/cbor.py:92-97 | the unpadded big-endian bytes of a natural number |
| `PyEncoder.EncodeTypeNum` | cbor/cbor.py:114-131 | the shortest head; a bignum for large negative integers, an error for other large numbers |
| `PyEncoder.DumpsInt` | cbor/cbor.py:71-88 | any integer, with a bignum from 2^64 on |
| `PyEncoder.DumpsArray` | cbor/cbor.py:152-155 | head and the items in order |
| `PyEncoder.DumpsDict` | cbor/cbor.py:159-171 | head, then keys and values alternating in insertion or sorted order; without a NaN among several keys where they are sorted |
| `PyEncoder.DumpsTag` | cbor/cbor.py:194-195 | tag numbers in [0, 2^64) with their content; any other number raises, and so does one that is no integer |
| `PyEncoder.Dumps` | cbor/cbor.py:210-228 | the encoding of the object, or an error exactly where some object, tag number or key order is unsupported; with sort_keys for objects without a NaN among several keys |
| `PyDecoder.TagAuxOf` | cbor/cbor.py:277-303 | the number of a head and the bytes read for it, with the first one |
| `PyDecoder.LoadsBytesOf` | cbor/cbor.py:454-475 | definite strings as far as they go, indefinite ones joined |
| `PyDecoder.BytesToBiguint` | cbor/cbor.py:479-484 | the loop over any iterable computes its big-endian value by shifts and ors; an element that is no number raises |
| `PyDecoder.Tagify` | cbor/cbor.py:494-511 | tags 2 and 3 become integers, over whatever can be iterated over; 1 and 35 come to a library call; without a number the result is a Tag with the number None |
| `PyDecoder.LoadsArray` | cbor/cbor.py:339-345 | the announced items in order and their byte counts added up |
| `PyDecoder.LoadsVarArray` | cbor/cbor.py:314-322 | items up to the break; the first byte of each is counted twice |
| `PyDecoder.LoadsMap` | cbor/cbor.py:346-354 | the announced entries; the last value of a key wins; an unhashable key raises |
| `PyDecoder.LoadsEntries` | cbor/cbor.py:348-354 | the loop of a definite map computes the dict of the entries it reads |
| `PyDecoder.LoadsVarMap` | cbor/cbor.py:325-335 | entries up to the break; the first byte of each key is counted twice |
| `PyDecoder.LoadsTb` | cbor/cbor.py:383-451 | computes the grammar for every first byte, with its byte count; an exception and a library call are told apart |
| `PyDecoder.LoadsItem` | cbor/cbor.py:374-381 | computes the grammar, with its byte count |
| `PyDecoder.Loads` | cbor/cbor.py:257-264 | the item at the start of the bytes, or an exception where there is none, unless it comes to a call of datetime or re |
| `PyDecoder.Load` | cbor/cbor.py:267-271 | takes exactly the bytes of one item from the file |
| `PyCompleteness.ReadItem` | cbor/cbor.py:383-451 | on the bytes of any item, malformed ones included, followed by anything, the Python decoder returns its meaning, stops exactly behind it and reports its cost as bytes read; where there is no meaning it raises, unless it comes to a call of datetime or re |
| `PyCompleteness.CostLaw` | cbor/cbor.py:314-335 | the reported count is the number of bytes read plus one per element of every indefinite array and one per entry of every indefinite map |
| `PyCompleteness.ExcessZero` | cbor/cbor.py:314-335 | the count is exact if and only if no indefinite container has elements |
| `PyTruncation.CutItem` | cbor/cbor.py:454-459 | on an item that lacks bytes at its end: accepted if and only if no more than a part of its last string is missing and what is left means something; it raises otherwise, unless it comes to a call of datetime or re |
| `PyTruncation.TruncationVerdict` | cbor/cbor.py:454-459 | the same for the first k bytes of an item |
| `PyTruncation.TruncationAccepted` | cbor/cbor.py:454-459 | an encoding cut by one byte that the Python decoder accepts |
| `CSoundness.ReadsItem` | c/cbormodule.c:209-461 | whatever bytes the C decoder accepts are exactly the bytes of some item, well-formed or not, and what it returns is what the item means to it |
| `CSoundness.Acceptance` | c/cbormodule.c:200-473 | the C decoder accepts exactly the bytes that start with an item that means something to it, over bytes and over a stream |
| `CSoundness.AcceptedAs` | c/cbormodule.c:200-473 | there is only one such item; the decoder accepts it exactly if it has a meaning, and returns that meaning |
| `CSoundness.StraightImproves` | c/cbormodule.c:157-196 | an item that is malformed can be put right, so that it is well-formed, no longer, and means the same to the C decoder |
| `CSoundness.JoinedTexts` | c/cbormodule.c:330-367 | items in a row that decode to texts are, byte for byte, chunks with the same joined text |
| `CSoundness.Range` | c/cbormodule.c:200-473 | the values that decoding some bytes yields are exactly those that some well-formed item means |
| `PySoundness.ExplainsItem` | cbor/cbor.py:383-451 | whatever bytes the Python decoder returns an object of this model for are an item, well-formed or with integers or tags that have no number, up to bytes missing at the end of its last string; value and count are those of that item |
| `PySoundness.ShownIsRead` | cbor/cbor.py:374-451 | every such input is accepted, with the value of what is left of the item and the cost of the whole one |
| `PySoundness.Acceptance` | cbor/cbor.py:374-451 | for all bytes: the decoder returns an object of this model exactly from the items that mean one, whole or cut inside their last string; library objects, which tags 1 and 35 can give, are not among them |
| `Agreement.AcceptedByC` | c/cbormodule.c:200-473 | any bytes that the C decoder accepts are an item, from which the Python decoder returns an object of this model exactly if it is within its limits, tags 1 and 35 beyond them |
| `Agreement.AcceptedByPython` | cbor/cbor.py:374-475 | any bytes from which the Python decoder returns an object of this model are an item, whole or cut, which the C decoder accepts exactly if it is whole and within its limits |
| `Agreement.BothAccept` | cbor/cbor.py:383-475 | any bytes that both decoders accept are an item, behind which both stop; the Python count exceeds what was read by exactly its excess; each value is what the item means to that decoder; they are equal if no integer and no tag in it is of indefinite length, and where no dict value is overwritten only then |
| `Agreement.VoidInteger` | cbor/cbor.py:299-301 | 0x1F is the integer 0 in C and None in Python |
| `Agreement.VoidTag` | cbor/cbor.py:432-441 | 0xDF is a tag with the number 0 in C and with the number None in Python |
| `Agreement.OverwrittenVoid` | cbor/cbor.py:346-354 | an item on which the decoders return equal dicts although an integer of indefinite length is in it |
| `Delimiting.ItemUnique` | c/cbormodule.c:209-461 | the bytes of an item, well-formed or not, determine it down to every head width, and no item starts another one |
| `Delimiting.HeadUnique` | c/cbormodule.c:157-196 | a head determines its width and its number |
| `Readings.DecodersCompare` | cbor/cbor.py:383-451 | where both decoders give an item a meaning and no integer and no tag in it is of indefinite length the meanings are equal; each accepts what the other does exactly within its own limits |
| `Readings.WellFormedFits` | cbor/cbor.py:494-511 | of the well-formed items the Python decoder is limited in tags 1 and 35 alone |
| `Readings.KeepsExactly` | cbor/cbor.py:346-354 | where no dict value is overwritten, said of each map inside the item |
| `Readings.ReadersCompare` | c/cbormodule.c:720-771 | over a stream the C decoder gives the same value, and gives one exactly where no indefinite byte string has an empty chunk |
| `RoundTrip.RoundTrips` | cbor/tests/test_cbor.py:70-81 | for every object that an encoder takes and every reading of the bytes (the standard, the C decoder over bytes and over a stream, the Python decoder): what was written is an item that means the object, with lists for tuples, if and only if no tag without a number is in the object and it survives |
| `RoundTrip.IntSurvives` | c/cbormodule.c:1207-1231 | an integer comes back except where a C bignum is involved and it is outside [-2^184, 2^184) |
| `Interop.DecodedByC` | cbor/tests/test_cbor.py:76-81 | for every object that an encoder takes, byte for byte with anything behind: the C decoder gives it back and stops behind its bytes, if and only if no tag without a number is in it and it survives |
| `Interop.DecodedByPython` | cbor/tests/test_cbor.py:70-75 | the same with the Python decoder, which reports exactly the length of the encoding |
| `Interop.BignumIsCut` | c/cbormodule.c:1065 | every decoder reads an integer from the C encoder back as its low 184 bits, which is the integer itself exactly in the range of a bignum |
| `Interop.SameBytes` | cbor/cbor.py:71-88 | the encoders agree byte for byte if and only if no integer is in [2^63, 2^64) or outside [-2^184, 2^184) |
| `Interop.SelfDelimiting` | cbor/cbor.py:210-228 | no encoding starts another, across both encoders, unless both are of one object up to tuples |
| `Interop.DecodersAgree` | cbor/cbor.py:383-475 | on the bytes of any item the two decoders stop at the same byte and return equal values, unless integers or tags of indefinite length are in it; each accepts what the other accepts exactly within its own limits |
| `Interop.WellFormedAgree` | cbor/cbor.py:383-475 | on the bytes of any well-formed item the two decoders return equal values and stop at the same byte |
| `Interop.BareTagIsLost` | c/cbormodule.c:1103-1158 | of every object that holds a tag without a number the C encoder writes, without an error, what no decoder accepts; with other bytes behind it no decoder stops where they begin; the Python encoder does not take the object |
| `Interop.HeadWithoutItem` | c/cbormodule.c:1103-1158 | a list of one such tag is written as a head without its item |
| `Holes.Padded` | c/cbormodule.c:1103-1158 | what the C encoder writes, with as many items behind it as tags without a number are in the object, is the bytes of items |
| `Holes.NoItem` | c/cbormodule.c:1103-1158 | no item starts the bytes of an object that holds a tag without a number |
| `Interop.ReadersAgree` | c/cbormodule.c:720-811 | on the bytes of any item the C decoder over a stream agrees with the one over bytes, exactly without empty chunks |
| `Recoding.CFresh` | c/cbormodule.c:209-461 | what the C decoder returns for arbitrary bytes: no tuples, integers of at most 184 bits, tag numbers without 2 and 3, dicts with distinct keys |
| `Recoding.PyFresh` | cbor/cbor.py:383-451 | the same for the Python decoder, which leaves no tag 1 or 35, but may leave tags whose number is None |
| `Recoding.FreshValid` | cbor/cbor.py:210-228 | a decoded object is one that the Python encoder supports, up to tags whose number is None, which the C decoder never leaves |
| `Recoding.FreshSurvives` | cbor/tests/test_cbor.py:70-81 | a decoded object comes through another encoder and decoder, if a C decoder can count its entries |
| `Recoding.CRecodes` | c/cbormodule.c:200-473 | whatever the C decoder made of arbitrary bytes the Python encoder encodes, the C one exactly where all tag numbers in it are below 2^63, and the C decoder reads the same object back, exactly if no list or dict in it has 2^32 entries or more |
| `Recoding.PyRecodes` | cbor/cbor.py:210-264 | the same within the Python implementation, with the exact count, where no tag in it has the number None; otherwise dumps raises |
| `Optimal.ShortestItem` | c/cbormodule.c:969-1009 | a well-formed item with minimal heads is strictly shorter than every other well-formed item of its shape |
| `Optimal.SameMeaning` | c/cbormodule.c:157-196 | head widths do not change what a well-formed item means |
| `Optimal.DumpsIsShortest` | cbor/cbor.py:114-131 | dumps writes the unique shortest of all encodings that differ only in head widths |
| `Optimal.ShapesAreBare` | cbor/cbor.py:114-131 | two items have one shape exactly if they are equal without the widths of their heads |
| `Optimal.MinimalExactly` | cbor/cbor.py:114-131 | the items with minimal heads are exactly those of which there is no shorter one of the same shape |
| `Sorting.SortSorted` | c/cbormodule.c:1024-1027 | sorting puts comparable distinct keys in ascending order |
| `SortOrder.SortedOrder` | cbor/cbor.py:163-167 | of two keys in sorted order the first is smaller: a proper start of the other text or byte string or smaller in the first octet that differs, in code points as well; the smaller number, infinities outside |
| `SortOrder.SortableKinds` | c/cbormodule.c:1024-1027 | the keys that can be sorted are numbers, texts or byte strings among themselves |
| `CodePoints.TextOrder` | cbor/cbor.py:163-167 | texts are in the order of their code points exactly if their bytes are in order |
| `Sorting.SortMembers` | c/cbormodule.c:1024-1027 | sorting keeps every entry and adds none |
| `Sorting.SortedUnique` | cbor/cbor.py:163-167 | there is only one sorted order of the same entries |
| `Sorting.CanonUnique` | cbor/cbor.py:159-171 | equal objects have one canonical form, whatever the insertion orders at any depth; keys and numbers of different types count as different |
| `SortOrder.SortedBytes` | cbor/cbor.py:159-171 | with sort_keys a dict is A0 with its size and then its entries, each once, in the order of their keys, written with sort_keys themselves |
| `SortOrder.SortedElsewhere` | cbor/cbor.py:210-228 | with sort_keys lists, tuples and tags are written with the sorted output of what is inside, everything else as without |
| `SortedOutput.Deterministic` | cbor/cbor.py:159-171 | with sort_keys equal objects encode to identical bytes; keys and numbers of different types, like 1 and True, count as different |
| `SortedOutput.EqualOutput` | cbor/cbor.py:159-171 | of objects that survive, sorted encodings are identical if and only if the objects are equal up to tuples, in that sense |
| `SortedOutput.SameLength` | c/cbormodule.c:1013-1050 | sorting does not change the length of the encoding |
| `SortedDecoding.SortedDecodes` | cbor/cbor.py:159-171 | for every object that an encoder takes with sort_keys: either decoder gives back an object equal to it and stops behind its bytes, if and only if no tag without a number is in it and it survives |
| `Stability.ItemExtends` | c/cbormodule.c:842-866 | appending bytes to anything that decodes changes neither its value nor where it ends |
| `Stability.PrefixRejected` | c/cbormodule.c:842-866 | the C decoder rejects every proper prefix of an item, over bytes and over a stream |
| `Interop.TruncationRejected` | c/cbormodule.c:842-866 | loads of the C decoder fails on every proper prefix of an encoding and, where a tag without a number is in the object, on all of it |
| `Stability.NodesItem` | c/cbormodule.c:200-473 | on arbitrary bytes a decoded value has no more objects than bytes were read |
| `Transport.ItemRefines` | c/cbormodule.c:720-811 | on arbitrary bytes, what the stream reader yields the buffer reader yields as well, with the same bytes left over |
| `TagMapper.FirstMatchWins` | cbor/tagmap.py:45-49 | of several classes that match an object the one registered first encodes it |
| `TagMapper.LookupFirst` | cbor/tagmap.py:69-71 | of several entries with a tag number the one registered first decodes it |
| `TagMapper.EncodesInstance` | cbor/tagmap.py:45-49 | the first entry with a class and an encode function, of whose class the object is an instance, makes it its tag; if encode raises so does the mapper |
| `TagMapper.EncodesOther` | cbor/tagmap.py:50-65 | every other object stays what it is; lists, tuples and dicts are rewritten element by element, into lists and dicts with the same keys |
| `TagMapper.DecodesTag` | cbor/tagmap.py:68-76 | the first entry with the number of a tag decodes what it holds; a tag without an entry is refused or left alone as the mapper was told |
| `TagMapper.DecodesOther` | cbor/tagmap.py:77-93 | lists and dicts are decoded element by element; tuples and everything else stay |
| `TagMapper.EncodeObj` | cbor/tagmap.py:44-65 | the loops over classes, items and entries compute the rewrite |
| `TagMapper.EncodeDict` | cbor/tagmap.py:52-63 | every key keeps its place and gets its rewritten value |
| `TagMapper.DecodeRaises` | cbor/tagmap.py:67-93 | decoding raises exactly when the walk meets a tag that is refused or fails to decode |
| `TagMapper.UnknownTagVerdict` | cbor/tagmap.py:72-74 | with decode functions that do not raise, decoding raises exactly when it was asked for and some tag outside other tags is not registered |
| `TagMapper.UnknownTagsPass` | cbor/tagmap.py:75-76 | unregistered tags otherwise leave the object as it is |
| `TagMapper.DecodeUndoesEncode` | cbor/tagmap.py:44-93 | decoding undoes encoding and the loss of tuples between them |
| `TagMapper.RestoredExactly` | cbor/tagmap.py:44-93 | an object comes back if and only if the tags of the registered objects in it are decoded to these objects, and every other tag to itself |
| `TagMapper.OwnEntryRestores` | cbor/tagmap.py:44-76 | with distinct numbers an object comes back if and only if the class that takes it decodes what it encoded |
| `TagMapper.MapperRoundTrip` | cbor/tagmap.py:98-105 | dumps and loads of a mapper restore the object, with either encoder and either decoder, wherever what the mapper makes of it survives with that encoder and that decoder |
| `TagMapper.SettledAlready` | cbor/tagmap.py:98-105 | and what is restored is the object itself when it has no tuples |
| `TagMapper.UnwrapsWrapped` | cbor/tagmap.py:108-138 | an object wrapped as tag 24 is unwrapped by a mapper that knows the tag |
| `TagMapper.WrappedBytes` | cbor/tagmap.py:108-138 | a wrapped object is D8 18 and the byte string of its encoding |
| `TagMapperHeap.Decode` | cbor/tagmap.py:67-93 | in place: ends in the state of the rewrite on values; every container stays the same object with its length and keys; nothing inside a tag is modified |
| `TagMapperHeap.DecodeList` | cbor/tagmap.py:77-81 | each element of the list is replaced by its decoded form |
| `TagMapperHeap.DecodeDict` | cbor/tagmap.py:82-91 | each value of the dict is replaced under its key |
| `TagMapperHeap.DecodeNested` | cbor/tagmap.py:77-91 | the walk replaces a tag in a list, and a tag in a dict in that list, in the list and the dict that were there |
| `TagMapperHeap.FindTag` | cbor/tagmap.py:69-71 | the first entry with the number |

## Left out

- Python 2: the `#else` branches, `PyInt` and the `FileReader` over a C `FILE*` are not modelled.
- A float is kept as the eight bytes of a double, and its arithmetic is that of exact numbers. Of a NaN in a half or single float the sign and the other bits are not modelled: it becomes the quiet NaN. The conversion of a single float, which the machine or `struct` does, is modelled as exact.
- Texts are kept as their UTF-8 bytes, of which `CodePoints` says what code points they are.
- Exceptions are one failure, with end of file, an exception of the stream and an endless loop told apart where a caller can see them. A TypeError that the C decoder or encoder leaves behind when a dict key is not hashable or keys cannot be compared is reported as failure of the whole call.
- Lengths of 2^63 and more, which turn negative in a cast to `Py_ssize_t`, are reported as failure, as is a container count that the 32-bit loop counters of the C decoder can never reach.
- Dict keys other than None, booleans, numbers, texts and byte strings (tuples, instances) are outside `Values.Valid`. With sort_keys, a dict of several entries with a NaN among its keys is outside `Sorting.Orderable`: sorting raises nothing there, and the order depends on the algorithm.
- `Tag` objects whose number is None, a float or a text are one kind of object in this model, as no encoder tells such numbers apart.
- `datetime.utcfromtimestamp` and `re.compile`, which tags 1 and 35 call in the Python decoder: what comes of the call is not modelled, and the outcome is reported as such a call. The grammar reads the keys and values of a map before it makes the dict: where a map has an unhashable key in front of such a call, `PyDecoder.Loads` raises although the grammar reports the call, and its contract allows both. On bytes that are no item, whole or cut, the model does not say which of the two the decoder comes to.
- PyDecoder.Load: file objects whose `read(n)` delivers fewer bytes than are left, like an unbuffered pipe, are not covered; there the decoder cuts strings short and then misreads the rest.
- Loading.PyLoadsItems: the same, and in PyLoadsStream.
- Streams that return something other than bytes, or more than was asked for; the second is checked by the C code and is an error there.
- Memory allocation, reference counts, argument parsing and the recursion limits of Python and of the C stack; the depth limit of `_loads` compares a depth that never grows.
- 64-bit shifts in C, and the shifts and masks of half floats, are written as division and remainder by powers of two; only first bytes are split and joined with bit operations.
- The state in which `TagMapper.decode` leaves containers when a decode function raises in the middle of the walk, beyond which containers it may touch; structures in which a container is shared or contains itself; decode functions that change their argument.
- `dump`, which writes the result of `dumps` to a file, `TagMapper.dump` and `TagMapper.load`, and `cbor/cbor_rpc_client.py`.
- Recoding.CFresh: about inputs shorter than 2^63 bytes, the largest that `Py_ssize_t` can count; so PyFresh, CRecodes and PyRecodes.
