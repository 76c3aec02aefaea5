/** The running SHA-1 of the lister, reduced to what is observable about it
    here: the sequence of bytes given to update(). The digest itself is not
    modelled. */
module HashInput {
  import opened Bytes

  class Hash {
    ghost var input: seq<byte>

    constructor ()
      ensures input == []
    {
      input := [];
    }

    /** hash.update(bytes) */
    method Update(bytes: seq<byte>)
      modifies this
      ensures input == old(input) + bytes
    {
      input := input + bytes;
    }
  }
}
