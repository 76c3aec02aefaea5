/** The streaming inflater (pako.Inflate) as seen by the pack lister: an
    oracle that, given the compressed bytes pushed into a fresh instance so
    far and the next chunk, says whether the stream is still incomplete, has
    finished (with the inflated data and how many bytes of that chunk it did
    not use, `strm.avail_in`), or is corrupt (`err`, `msg`). */
module Inflaters {
  import opened Bytes

  datatype Inflation = NeedMore | Done(result: seq<byte>, availIn: nat) | Failed(message: string)

  /** (bytes pushed before, chunk pushed now) -> state after the push */
  type Inflater = (seq<byte>, seq<byte>) -> Inflation

  /** The inflater never reports more unused input than the chunk it was
      given. */
  ghost predicate Conforms(inflate: Inflater)
  {
    forall fed: seq<byte>, chunk: seq<byte> :: inflate(fed, chunk).Done? ==> inflate(fed, chunk).availIn <= |chunk|
  }
}
