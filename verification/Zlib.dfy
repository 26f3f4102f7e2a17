/**
 The compressor, which belongs to another library: a function of the chunks
 written to it, and the bytes it has emitted so far as an arbitrary oracle.
 */
module Zlib {
  import opened Bytes
  import Framing

  datatype Codec = Codec(
    deflate: seq<Bytes> -> Bytes,
    inflate: Bytes -> Option<Bytes>,
    emitted: seq<Bytes> -> nat)
  {
    /** However the text was cut into chunks, decompressing gives the text back. */
    ghost predicate Lossless() {
      forall chunks :: inflate(deflate(chunks)) == Some(Framing.Concat(chunks))
    }
  }
}
