/** Types shared by every module: octets, and the usual optional value. */
module Prelude {

  /** One octet. */
  type byte = b: int | 0 <= b < 256

  datatype Option<+T> = None | Some(value: T)

  /** The two encoders and the two decoders: `c/cbormodule.c` and `cbor/cbor.py`. */
  datatype Codec = C | Python

  lemma Assoc(x: seq<byte>, y: seq<byte>, z: seq<byte>)
    ensures x + y + z == x + (y + z)
    ensures x != [] ==> (x + y + z)[0] == x[0]
  {
  }
}
