# Pack stream lister

A model of isomorphic-git's packfile lister, `_listpack` and `parseHeader`
in `src/utils/git-list-pack.js`, with proofs about it.

The lister takes a stream reader over a Git pack stream. It first reads
the 12-byte pack header: the signature, the version and the big-endian
object count. Then, as long as the stream has not ended and objects are
still declared, it does the following for each object:

- It parses the object's variable-length header: the type, the inflated
  length, and the base reference of a delta.
- It pushes chunks of the stream into a fresh inflater until the inflater
  finishes.
- On the chunk that finishes the body, it steps back over that chunk and
  re-reads only the bytes the inflater used. This leaves the cursor exactly
  at the end of the compressed body.
- It hands a record (`data`, `type`, `num`, `offset`, `end`, `reference`,
  `ofs`) to the callback.

Every raw byte the lister consumes is also fed to a running SHA-1.

The project has these modules:

- `Bytes` (`bytes.dfy`): bytes, big-endian words, and JavaScript's 32-bit
  `|` and `<<`.
- `Errors` (`errors.dfy`): `Option`, `Result`, and the two failures:
  `StreamTruncated` from the reader and `InternalFail(message)` from the
  lister.
- `Streams` (`stream_reader.dfy`): the `StreamReader` class.
  - It has a cursor `pos`, the length of the last move `lastChunkLen`, and
    the `ended` flag.
  - Its methods are `read(n)`, `byte()`, `chunk()` and `undo()`, plus the
    functions `tell()` and `eof()`.
  - Each chunk is the next `blockSize` bytes from the cursor, or the rest
    of the data when fewer remain. `blockSize` is a parameter.
- `HashInput` (`hash_input.dfy`): the hash, reduced to the ghost sequence
  of bytes given to `update`.
- `Inflaters` (`inflater.dfy`): the inflater as an oracle.
  - It takes the bytes pushed so far and the next chunk.
  - It answers `NeedMore`, `Done(result, availIn)` or `Failed(message)`.
- `ObjectHeaders` (`object_header.dfy`): `parseHeader` as methods.
  - `ReadVarint` is the two `do … while` loops.
  - The other methods are `ParseLength`, `ParseLengthGroups`, `ParseDelta`
    and `ParseHeader`.
  - Each method is proved against a pure specification over the remaining
    bytes: `LengthSpec`, `ParseBase` and `ParseHeaderSpec`.
- `HeaderProperties` and `HeaderBounds` (`header_props.dfy`,
  `header_bounds.dfy`): what the decoded header means.
  - The value of the seven-bit groups.
  - An encoder whose output the decoder reads back.
  - Where a header ends, and what each field holds.
- `ListPack` (`list_pack.dfy`): `_listpack` as methods.
  - `ListPack`, `ReadPackHeader`, `ListObjectsLoop` (the outer loop),
    `ListOne`, `ObjectBody`, `InflateObject` (the chunk loop) and
    `TakeUsed` (undo and read back).
  - The methods are proved against the functions `InflateBody`, `ObjectAt`,
    `BodyAt`, `ListObjects` and `ListPackSpec`.
- `ListPackProperties` (`list_props.dfy`): what the listing means.
  - How many records there are, and how they are numbered.
  - Where each record starts and ends.
  - Which bytes each record is decoded from.
  - Where the lister stops.

Three details of the code are modelled exactly:

- **32-bit arithmetic.** `length` and `ofs` are JavaScript numbers built by
  32-bit `|=` and `<<`. `Shl32` takes the shift count modulo 32 and drops
  bits past bit 31. `Int32` reads the final bit pattern as a signed 32-bit
  number. The model therefore covers any number of continuation bytes.
  The "value is the plain sum" lemmas carry the byte bounds under which
  nothing wraps.
- **The offset-delta base offset.** The code decodes it as a plain
  little-endian base-128 sum, `ofs |= (b & 0x7F) << shift`. Git's pack
  format defines it differently: most significant group first, with one
  added before each shift. The model follows the code.
  `HeaderProperties.OfsDiffersFromGit` shows the two disagree on the
  bytes `0x90 0x02`: the code gives 272, Git's format means 2178.
- **A stream that ends inside an object body.** One would expect a
  truncated-stream error here, as when a header is cut short. The code breaks out of the chunk loop with
  `if (reader.ended) break`, pushes nothing and throws nothing. The outer
  loop then sees `eof()` and returns. The model follows the code:
  `BodyEnded`, and `Stop(None, |data|)`.

## Model

| member | source | states |
|---|---|---|
| ObjectHeaders.ParseHeader | src/utils/git-list-pack.js:75-116 | On success, the header and the bytes consumed are exactly `ParseHeaderSpec` of the remaining stream. Every consumed byte, and no other, is appended to the hash input. On failure, the error is the one `ParseHeaderSpec` gives. |
| ObjectHeaders.ParseLength | src/utils/git-list-pack.js:77-93 | It reads the first byte and, when its continuation bit is set, the size varint. It hashes each byte. Type, length and byte count agree with `LengthSpec`, including the truncated case. |
| ObjectHeaders.ParseLengthGroups | src/utils/git-list-pack.js:85-93 | After a first byte with bit 7 set, it reads continuation groups until one has bit 7 clear. The accumulated length and the bytes consumed agree with `LengthSpec`. A stream that ends first gives `StreamTruncated`. |
| ObjectHeaders.ReadVarint | src/utils/git-list-pack.js:87-92 | The loop reads exactly the bytes of one varint. These are the bytes up to and including the first one with bit 7 clear. It returns them in order, hashes them, and returns `Accumulate` of them under 32-bit OR and shift. When every remaining byte has bit 7 set, it fails with `StreamTruncated`. |
| ObjectHeaders.ParseDelta | src/utils/git-list-pack.js:94-115 | Type 6 reads a varint, kept as `reference`, whose 32-bit sum is `ofs`. Type 7 reads 20 bytes into `reference`. Other types read nothing. In every case the result agrees with `ParseBase` and the hash gets exactly the bytes read. |
| ObjectHeaders.ParseHeaderSpec | src/utils/git-list-pack.js:75-116 | A parsed header occupies at least one byte and no more than the stream holds. The only failure is `StreamTruncated`. |
| ObjectHeaders.LengthSpec | src/utils/git-list-pack.js:77-93 | The type and length take at least one byte and at most what is there. The only failure is `StreamTruncated`. |
| ObjectHeaders.ParseBase | src/utils/git-list-pack.js:95-115 | The base part takes no more bytes than remain. The only failure is `StreamTruncated`. |
| ObjectHeaders.GroupLen | src/utils/git-list-pack.js:87-92 | The end of a varint, when found, lies between 1 and the length of the input. |
| ObjectHeaders.GroupLenShape | src/utils/git-list-pack.js:101-107 | In a varint read this way, every byte but the last has bit 7 set and the last has it clear. No varint is found exactly when every byte has bit 7 set. |
| ObjectHeaders.GroupLenAppend | src/utils/git-list-pack.js:87-92 | Bytes after a complete varint do not change where it ends. |
| ObjectHeaders.AccumulateSnoc | src/utils/git-list-pack.js:90-91 | One more group ORs `(b & 0x7F) << (shift + 7k)` into the accumulated bits. |
| ObjectHeaders.Accumulate | src/utils/git-list-pack.js:87-92 | The 32-bit pattern left by the loop body `acc = acc OR ((byte & 0x7F) << shift); shift += 7` after a run of bytes, with JavaScript's shift wrap and lost high bits. Its properties are stated by `AccumulateSnoc` (one more byte ORs in one shifted group) and `HeaderProperties.AccumulateExact` (below bit 32 it is plain addition of the groups). |
| ObjectHeaders.OfsValue | src/utils/git-list-pack.js:98-108 | `ofs` as the code computes it: the 32-bit little-endian accumulation of the base-offset bytes from shift 0, read as a signed 32-bit number, so it lies in [-2^31, 2^31). `HeaderBounds.OfsValueExact` proves it is the plain sum of the groups for at most four bytes; `HeaderProperties.OfsDiffersFromGit` shows it is not Git's base distance. |
| ObjectHeaders.Kind | src/utils/git-list-pack.js:79 | `(byte >> 4) & 0b111` is below 8. |
| ObjectHeaders.LowNibble | src/utils/git-list-pack.js:82 | `byte & 0b1111` is below 16. |
| HeaderBounds.HeaderFields | src/utils/git-list-pack.js:79-115 | The type is bits 6-4 of the first byte. `reference` is set exactly for types 6 and 7. `ofs` is set exactly for type 6. The reference starts right after the type-and-length bytes and runs to the end of the header, so the header is exactly those two parts; without a reference it is the type and length alone. For type 7, `reference` is those 20 bytes. For type 6, `reference` is the complete varint read there, and `ofs` is its 32-bit sum. `length` is the signed reading of the accumulated bits. |
| HeaderBounds.LengthValue | src/utils/git-list-pack.js:82-92 | With at most four continuation bytes, continuation byte k contributes its seven bits times 2^(4+7k). The length is the low nibble plus 16 times the group value, modulo 2^32. It is exactly that value below 2^31. |
| HeaderBounds.OfsValueExact | src/utils/git-list-pack.js:98-107 | For a base offset of at most four bytes, `ofs` equals the sum of `(b_k & 0x7F) * 128^k`. |
| HeaderBounds.HeaderPrefix | src/utils/git-list-pack.js:85-115 | Replacing the bytes after a header does not change its decoding or its length. Header parsing never reads past the header. |
| HeaderBounds.HeaderShort | src/utils/git-list-pack.js:85-115 | Any proper prefix of a header is reported as `StreamTruncated`. Header parsing needs every one of its bytes. |
| HeaderBounds.LengthSpecPrefix | src/utils/git-list-pack.js:85-93 | The type-and-length part reads only its own bytes. |
| HeaderBounds.LengthSpecShort | src/utils/git-list-pack.js:85-93 | A proper prefix of the type-and-length part is a failure. |
| HeaderBounds.ParseBasePrefix | src/utils/git-list-pack.js:97-114 | The base reference reads only its own bytes. |
| HeaderBounds.ParseBaseShort | src/utils/git-list-pack.js:97-114 | A proper prefix of the base reference is a failure. |
| HeaderBounds.GroupLenTake | src/utils/git-list-pack.js:87-92 | A varint's own bytes are enough to find its end. |
| HeaderBounds.GroupLenShort | src/utils/git-list-pack.js:87-92 | No proper prefix of a varint holds its end. |
| HeaderProperties.HeaderRoundTrip | src/utils/git-list-pack.js:75-116 | Every encodable header, followed by any bytes, decodes back to itself. It consumes exactly its encoded bytes. |
| HeaderProperties.LengthRoundTrip | src/utils/git-list-pack.js:77-93 | The encoded type and length of a length below 2^31 decode to that type and length. They consume exactly the encoding, whatever follows. |
| HeaderProperties.BaseRoundTrip | src/utils/git-list-pack.js:94-115 | An encoded base offset of at most four groups, or a 20-byte base id, decodes back to `ofs` and `reference`. |
| HeaderProperties.FirstByteFields | src/utils/git-list-pack.js:79-85 | The encoded first byte carries the type in bits 6-4 and the low length nibble in bits 3-0. Bit 7 is set exactly when the length needs more bytes. |
| HeaderProperties.EncodeGroupsEnd | src/utils/git-list-pack.js:87-92 | The varint loop stops exactly at the end of an encoded value. |
| HeaderProperties.EncodeGroupsValue | src/utils/git-list-pack.js:87-92 | The seven-bit groups of an encoded value sum back to it. |
| HeaderProperties.AccumulateExact | src/utils/git-list-pack.js:90 | While no group is shifted past bit 31, the 32-bit OR of shifted groups equals `init + 2^shift * GroupValue`. |
| HeaderProperties.LengthExample | src/utils/git-list-pack.js:77-92 | The bytes `0xB5 0x07` give type 3 and length 117, and the length takes both bytes. |
| HeaderProperties.HeaderExample | src/utils/git-list-pack.js:75-116 | The header `0xB5 0x07` is a blob (type 3) of length 117 with no `ofs` or `reference`, two bytes long. |
| HeaderProperties.OfsDiffersFromGit | src/utils/git-list-pack.js:98-107 | For `0x90 0x02`, the code's `ofs` is 272, while Git's base-distance encoding gives 2178. |
| ListPack.ListPack | src/utils/git-list-pack.js:23-73 | The records pushed and the error thrown are exactly those of `ListPackSpec` on the stream. When no error is thrown, the lister stops where `ListPackSpec` says, and the hash input is every byte of the stream up to that point, in order. |
| ListPack.ReadPackHeader | src/utils/git-list-pack.js:24-32 | A stream shorter than 12 bytes fails with `StreamTruncated`. Otherwise the count is the big-endian word in bytes 8-11, the cursor is at 12, and the hash gets exactly the 12 header bytes. |
| ListPack.ListObjectsLoop | src/utils/git-list-pack.js:34-72 | The `while (!eof() && numObjects--)` loop pushes exactly the records of `ListObjects` and raises its error. On normal exit the cursor is at the listing's stop, and the hash input is the whole consumed stream. |
| ListPack.ListOne | src/utils/git-list-pack.js:35-71 | One pass is one step of `ListObjects`, in one of three ways. (1) An error raised with no record for this object. (2) The stream ends inside the body, with no record and no error. (3) A record at `offset`, ending at the new cursor, followed by the listing from there. |
| ListPack.ObjectBody | src/utils/git-list-pack.js:37-67 | After the header, the chunk loop, the size check, the undo and read-back, and the record agree with `BodyAt`. An inflater error or a different inflated size fails before any push, and the size check comes before the undo and read-back. On success the cursor is at the body's end and the hash input is the whole stream up to it. |
| ListPack.InflateObject | src/utils/git-list-pack.js:37-71 | The chunk loop's outcome is `InflateBody` from the body start. The hash gets every chunk that did not finish inflation. When the inflater finishes, the finishing chunk has been read but not hashed: the cursor is at its end and the last move is its length, ready for `undo()`. |
| ListPack.InflateStep | src/utils/git-list-pack.js:41-70 | One push: the inflater's `Failed`, `Done` and need-more answers give `InflateFailed`, the end at `chunkEnd - avail_in`, and the next chunk. |
| ListPack.TakeUsed | src/utils/git-list-pack.js:55-58 | `undo()` then `read(used)` puts the cursor at the start of the last chunk plus `used`, and hashes exactly those bytes. |
| ListPack.InflateBody | src/utils/git-list-pack.js:38-71 | A finished body ends inside the chunk it finished on, which starts inside the stream. |
| ListPack.ObjectAt | src/utils/git-list-pack.js:35-67 | A pass either makes a record at `pos`, ending inside the stream, numbered `num`, or stops. It stops at `pos` after an error, and at the end of the stream when the stream ended. |
| ListPack.ListObjects | src/utils/git-list-pack.js:34-72 | The outer `while (!reader.eof() && numObjects--)` loop as a function of the position and the count still declared: one `ObjectAt` step, then the listing from the record's end. `ListObjectsLoop` is proved equal to it; its properties are stated by `ListingHead`, `ListingCount`, `ListingLayout`, `ListingStop`, `ListingDecoded` and `TruncatedAfterRecord`. |
| ListPack.ListPackSpec | src/utils/git-list-pack.js:23-73 | The whole of `_listpack`: a stream shorter than the 12-byte header is truncated; otherwise the objects from byte 12, as many as the big-endian count in bytes 8-11. `ListPack` is proved equal to it; `PackListing` states its count, numbering and layout. |
| ListPack.BodyAt | src/utils/git-list-pack.js:37-67 | A record ends no earlier than the end of its header. |
| ListPack.PrependPrepend | src/utils/git-list-pack.js:59-67 | Pushing records one after another concatenates them in order. |
| ListPackProperties.InflateBodyEnd | src/utils/git-list-pack.js:47-58 | A finished body ends on a chunk inside the stream at `last`. The inflater, given the earlier chunks and that one, reported `Done` with exactly `chunkEnd - end` bytes unused. The cursor is the start of the last chunk plus the bytes the inflater consumed. |
| ListPackProperties.ListingHead | src/utils/git-list-pack.js:34-71 | The first record of a listing is at `pos`, numbered `remaining - 1`, and ends inside the stream. The rest is the listing from its end. With no record: an error at `pos`, nothing left to list, or the stream ended. |
| ListPackProperties.ListingCount | src/utils/git-list-pack.js:34-35 | At most the declared number of records are pushed. Their `num` fields count down from `remaining - 1`. An error means fewer records than declared. |
| ListPackProperties.ListingLayout | src/utils/git-list-pack.js:35-58 | Records are contiguous from `pos`. The first starts at `pos`, each `end` is the next `offset`, and each record is non-empty and inside the stream. |
| ListPackProperties.ListingStop | src/utils/git-list-pack.js:34-52 | After all records or an error, the lister stops at the end of the last record, which is where the failing object starts. If it lists fewer than declared without an error, the stream ended and it stops at the end of the data. |
| ListPackProperties.ListingDecoded | src/utils/git-list-pack.js:35-66 | Each record is what is in the stream at its offset. This covers the header's type, `reference` and `ofs`, and the inflated data with the declared length. Its `end` is where that body's compressed data ends. |
| ListPackProperties.ObjectDecoded | src/utils/git-list-pack.js:35-66 | A record produced by one pass is decoded from the stream at its offset. |
| ListPackProperties.FirstDecoded | src/utils/git-list-pack.js:35-66 | The first record of a listing is decoded at its offset. |
| ListPackProperties.TruncatedAfterRecord | src/utils/git-list-pack.js:34-36 | Suppose the stream declares more objects than it holds and ends right after a complete record. Then that record is pushed, and the next header raises `StreamTruncated` at the end of the data. |
| ListPackProperties.PackListing | src/utils/git-list-pack.js:25-35 | A stream shorter than the 12-byte header is truncated. Otherwise the records start at byte 12, lie end to end, and number at most the big-endian count in bytes 8-11. They are numbered from that count minus one downwards. |
| ListPackProperties.ChainCount | src/utils/git-list-pack.js:34-35 | For any listing function with the shape of one loop step, the record count and numbering hold. |
| ListPackProperties.ChainLayout | src/utils/git-list-pack.js:35-58 | For any listing function with the shape of one loop step, the records are contiguous. |
| ListPackProperties.ChainStop | src/utils/git-list-pack.js:34-52 | For any listing function with the shape of one loop step, the stopping point is as in `ListingStop`. |
| Streams.StreamReader.Read | src/utils/git-list-pack.js:56 | `read(n)` returns exactly the next n bytes and moves the cursor by n. Otherwise it fails with `StreamTruncated` and the reader is exhausted. |
| Streams.StreamReader.Byte | src/utils/git-list-pack.js:77 | `byte()` returns the next byte and moves past it. At the end of the data it fails with `StreamTruncated` and sets `ended`. |
| Streams.StreamReader.Chunk | src/utils/git-list-pack.js:39-40 | `chunk()` returns the next `blockSize` bytes from the cursor, or the rest of the data. At the end of the data it returns nothing and sets `ended`. |
| Streams.StreamReader.Undo | src/utils/git-list-pack.js:55 | `undo()` moves the cursor back by the length of the last move. |
| Streams.StreamReader.Tell | src/utils/git-list-pack.js:35 | `tell()` is a position inside the stream. |
| Streams.StreamReader.Eof | src/utils/git-list-pack.js:34 | `eof()` holds only at the end of the data, and always once the source has ended. |
| Streams.ChunkEnd | src/utils/git-list-pack.js:39 | A chunk is non-empty and at most `blockSize` bytes: it ends `blockSize` bytes after the cursor, or at the end of the data. |
| HashInput.Hash.Update | src/utils/git-list-pack.js:26 | `update(bytes)` appends exactly those bytes to the hash input. |
| Bytes.ReadUInt32BE | src/utils/git-list-pack.js:32 | `readUInt32BE(0)` is below 2^32. |
| Bytes.UInt32BEInjective | src/utils/git-list-pack.js:32 | The big-endian count is a bijection with four-byte buffers. Encoding the value read gives the bytes back. |
| Bytes.UInt32BERoundTrip | src/utils/git-list-pack.js:32 | Reading the encoding of a 32-bit count gives it back. |
| Bytes.Int32 | src/utils/git-list-pack.js:90 | The number a 32-bit bitwise result denotes is the signed reading of its bits. It is congruent to them modulo 2^32 and non-negative exactly below 2^31. |
| Bytes.Or32 | src/utils/git-list-pack.js:90 | JavaScript's 32-bit OR of two bit patterns. `BitOr32Bound` keeps it below 2^32. `BitOrDisjoint` makes it plain addition when one operand is shifted past every set bit of the other, which `HeaderProperties.AccumulateExact` relies on. |
| Bytes.Shl32 | src/utils/git-list-pack.js:90 | JavaScript's `v << shift`: the shift count modulo 32, bits past bit 31 dropped. `ShlBitsValue` states the shift as multiplication by 2^n modulo 2^32. `HeaderProperties.ShlExact` states it is exact multiplication when nothing passes bit 31. |
| Bytes.Low7 | src/utils/git-list-pack.js:90 | `byte & 0b01111111`, the seven payload bits of a varint byte, below 128. |
| Bytes.Continues | src/utils/git-list-pack.js:92 | `byte & 0b10000000` is set: the varint continues. `ObjectHeaders.GroupLenShape` states where the loops that test it stop. |
| Bytes.ShlBitsValue | src/utils/git-list-pack.js:90 | Shifting left by n bits is multiplying by 2^n modulo 2^32. |

## Left out

- The `listpack` event-emitter wrapper (`src/utils/git-list-pack.js:11-21`) is left out. It only hands the callback to `_listpack`, and the model returns the pushed records instead.
- `src/commands/resetIndex.js` is left out. It is filesystem and index glue over managers that are not part of this model.
- `StreamReader.js` is not part of this model. The reader is modelled by the contract its uses imply, over a finite in-memory byte sequence.
  - Each chunk is the next `blockSize` bytes from the cursor. A real source may choose other chunk sizes.
  - `async`/`await` suspension is not modelled: each reader call is one synchronous step.
- DEFLATE (pako) is an oracle (`Inflaters.Inflater`), not an implementation.
  - The lister's methods require the oracle never to report more unused input than the chunk it was given (`Conforms`).
  - `InflateBody` clamps a non-conforming answer to an empty use of the chunk. That is a case the methods never take.
- SHA-1 (sha.js) is not computed. Only the sequence of bytes passed to `update` is tracked.
- Pack signature and version checks, the trailing checksum, and delta resolution are not modelled. The code does none of them: the version is read and hashed, but never checked.
- ListPack.ListPack: the hash input is stated only when no error is thrown. After an error, the bytes already hashed are not described.
- HeaderBounds.LengthValue: the exact-sum form assumes at most four continuation bytes. With more, the length depends on the 32-bit wrap-around of the shift count, which `Accumulate` models but this lemma does not restate.
- HeaderBounds.OfsValueExact: the exact-sum form assumes a base offset of at most four bytes. Longer ones wrap as `Accumulate` models.
- HeaderProperties.HeaderRoundTrip: covers only lengths below 2^31 and base offsets below 2^28, the headers whose 32-bit decoding does not wrap.
- Git's most-significant-first encoding of the offset-delta distance is not what the code computes. It appears only in `HeaderProperties.OfsDiffersFromGit`.
- The record's `type` is the type number from the header. No mapping to type names is modelled.
