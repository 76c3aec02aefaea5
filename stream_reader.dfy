/** The byte-stream reader the pack lister pulls from. The underlying source
    is a finite byte sequence handed out in chunks of at most `blockSize`
    bytes; the source, not the caller, decides the size. Every successful
    move of the cursor remembers its length so that `undo()` can step back
    over it, once. */
module Streams {
  import opened Bytes
  import opened Errors

  /** Where the chunk that starts at `pos` ends: `blockSize` bytes on, or at
      the end of the data. */
  function ChunkEnd(dataLength: nat, blockSize: nat, pos: nat): (e: nat)
    requires 0 < blockSize && pos < dataLength
    ensures pos < e <= dataLength && e - pos <= blockSize
    ensures e == dataLength || e == pos + blockSize
  {
    if pos + blockSize < dataLength then pos + blockSize else dataLength
  }

  class StreamReader {
    const data: seq<byte>
    const blockSize: nat
    /** tell(): the absolute position of the cursor */
    var pos: nat
    /** how far the last read, byte or chunk moved the cursor (what undo() takes back) */
    var lastChunkLen: nat
    /** set once the source was asked for more and had nothing left */
    var ended: bool

    ghost predicate Valid()
      reads this
    {
      0 < blockSize && pos <= |data| && lastChunkLen <= pos &&
      (ended ==> pos == |data| && lastChunkLen == 0)
    }

    constructor (data: seq<byte>, blockSize: nat)
      requires 0 < blockSize
      ensures Valid()
      ensures this.data == data && this.blockSize == blockSize
      ensures pos == 0 && lastChunkLen == 0 && !ended
    {
      this.data := data;
      this.blockSize := blockSize;
      pos, lastChunkLen, ended := 0, 0, false;
    }

    /** tell() */
    function Tell(): (r: nat)
      reads this
      requires Valid()
      ensures r <= |data|
    {
      pos
    }

    /** eof(): the source has ended and every byte has been handed out. */
    function Eof(): (r: bool)
      reads this
      requires Valid()
      ensures r ==> pos == |data|
      ensures ended ==> r
    {
      ended && pos == |data|
    }

    /** read(n): exactly n bytes, or a truncated-stream failure that leaves
        the reader exhausted. */
    method Read(n: nat) returns (r: Result<seq<byte>, PackError>)
      requires Valid()
      modifies this
      ensures Valid()
      ensures old(pos) + n <= |data| ==>
        r == Success(data[old(pos)..old(pos) + n]) && pos == old(pos) + n &&
        lastChunkLen == n && ended == old(ended)
      ensures old(pos) + n > |data| ==>
        r == Failure(StreamTruncated) && pos == |data| && lastChunkLen == 0 && ended
    {
      if pos + n <= |data| {
        r := Success(data[pos..pos + n]);
        pos, lastChunkLen := pos + n, n;
      } else {
        r := Failure(StreamTruncated);
        pos, lastChunkLen, ended := |data|, 0, true;
      }
    }

    /** byte(): the next byte, or a truncated-stream failure. */
    method Byte() returns (r: Result<byte, PackError>)
      requires Valid()
      modifies this
      ensures Valid()
      ensures old(pos) < |data| ==>
        r == Success(data[old(pos)]) && pos == old(pos) + 1 && lastChunkLen == 1 && ended == old(ended)
      ensures old(pos) == |data| ==>
        r == Failure(StreamTruncated) && pos == |data| && lastChunkLen == 0 && ended
    {
      if pos < |data| {
        r := Success(data[pos]);
        pos, lastChunkLen := pos + 1, 1;
      } else {
        r := Failure(StreamTruncated);
        lastChunkLen, ended := 0, true;
      }
    }

    /** chunk(): the next chunk of the source, or nothing (and `ended`) when
        the source has no bytes left. */
    method Chunk() returns (c: seq<byte>)
      requires Valid()
      modifies this
      ensures Valid()
      ensures old(pos) < |data| ==>
        var e := ChunkEnd(|data|, blockSize, old(pos));
        c == data[old(pos)..e] && pos == e && lastChunkLen == |c| && ended == old(ended)
      ensures old(pos) == |data| ==>
        c == [] && pos == |data| && lastChunkLen == 0 && ended
    {
      if pos < |data| {
        var e := ChunkEnd(|data|, blockSize, pos);
        c := data[pos..e];
        pos, lastChunkLen := e, |c|;
      } else {
        c := [];
        lastChunkLen, ended := 0, true;
      }
    }

    /** undo(): step the cursor back over the last move; a second undo does nothing. */
    method Undo()
      requires Valid()
      modifies this
      ensures Valid()
      ensures pos == old(pos) - old(lastChunkLen) && lastChunkLen == 0 && ended == old(ended)
    {
      pos, lastChunkLen := pos - lastChunkLen, 0;
    }
  }
}
