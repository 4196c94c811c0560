/** Variable-sized entries of include/SimuStorTypes.h.

    A stream whose entry size carries VARIABLE_ENTRY_SIZE_FLAG stores each
    entry as a chain of fixed-size blocks of sizeHint bytes. Every block
    starts with a two-byte VDataBlockHeader {reserved:1, continuation:1,
    size:14} followed by up to sizeHint - 2 data bytes; all blocks of an entry
    but the last have continuation = 1 and are full, and the unused tail of
    the last block is zero-filled.

    The header bit-field is laid out as GCC and MSVC do on little-endian
    targets: reserved is bit 0, continuation bit 1 and size bits 2..15 of a
    little-endian 16-bit word. */
module VariableData {
  import opened Wrappers
  import opened Bytes

  const VariableEntrySizeFlag: bv32 := 0x8000_0000
  const HeaderSize: nat := 2
  /** (1 << 14) - 1 + sizeof(VDataBlockHeader) */
  const VariableEntryMaxSize: nat := 0x3FFF + HeaderSize

  // ---------------------------------------------------------------------
  // Entry-size helpers

  /** isVariableEntrySize */
  predicate IsVariableEntrySize(entrySize: bv32)
  {
    entrySize & VariableEntrySizeFlag != 0
  }

  /** getSizeHint, also getEntrySize on a descriptor's entry size: the value
      with the flag bit cleared. */
  function GetSizeHint(entrySize: bv32): (r: bv32)
    ensures !IsVariableEntrySize(r)
    ensures r | (entrySize & VariableEntrySizeFlag) == entrySize
  {
    entrySize & !VariableEntrySizeFlag
  }

  /** The hint clamped to VARIABLE_ENTRY_MAX_SIZE. */
  function ClampHint(sizeHint: bv32): (h: bv32)
    ensures h <= VariableEntryMaxSize as bv32
    ensures h == sizeHint || h == VariableEntryMaxSize as bv32
  {
    if sizeHint > VariableEntryMaxSize as bv32 then VariableEntryMaxSize as bv32 else sizeHint
  }

  /** A value below 2^31 keeps its bits when the flag is set. */
  lemma FlagRoundTrip(h: bv32)
    requires h < 0x8000_0000
    ensures IsVariableEntrySize(h | VariableEntrySizeFlag)
    ensures GetSizeHint(h | VariableEntrySizeFlag) == h
  {
  }

  /** makeVariableEntrySize: the hint clamped to VARIABLE_ENTRY_MAX_SIZE with
      the flag bit set. The source asserts that the hint has no flag bit
      and exceeds the header size. */
  function MakeVariableEntrySize(sizeHint: bv32): (r: bv32)
    requires sizeHint & VariableEntrySizeFlag == 0
    requires sizeHint > HeaderSize as bv32
    ensures IsVariableEntrySize(r)
    ensures GetSizeHint(r) == ClampHint(sizeHint)
    ensures HeaderSize as bv32 < GetSizeHint(r) <= VariableEntryMaxSize as bv32
  {
    var hint := ClampHint(sizeHint);
    FlagRoundTrip(hint);
    hint | VariableEntrySizeFlag
  }

  // ---------------------------------------------------------------------
  // Block header

  datatype BlockHeader = BlockHeader(reserved: bool, continuation: bool, size: nat)

  /** The two bytes of a header with reserved = 0. */
  function HeaderBytes(continuation: bool, size: nat): (h: seq<byte>)
    requires size < 0x4000
    ensures |h| == HeaderSize
  {
    [((if continuation then 2 else 0) + 4 * (size % 64)) as byte, (size / 64) as byte]
  }

  /** Reading a header from its two bytes. */
  function ParseHeader(b0: byte, b1: byte): (h: BlockHeader)
    ensures h.size < 0x4000
  {
    BlockHeader(b0 % 2 == 1, (b0 / 2) % 2 == 1, b0 as int / 4 + 64 * b1 as int)
  }

  lemma ParseHeaderBytes(continuation: bool, size: nat)
    requires size < 0x4000
    ensures ParseHeader(HeaderBytes(continuation, size)[0], HeaderBytes(continuation, size)[1])
            == BlockHeader(false, continuation, size)
  {
  }

  function Zeros(n: nat): (z: seq<byte>)
    ensures |z| == n
  {
    seq(n, _ => 0)
  }

  function Min(a: nat, b: nat): nat { if a <= b then a else b }

  // ---------------------------------------------------------------------
  // Encoding

  /** Number of blocks writeVariableData fills for len data bytes when room
      bytes of destination are left. */
  function BlocksUsed(len: nat, sizeHint: nat, room: nat): (k: nat)
    requires HeaderSize < sizeHint <= VariableEntryMaxSize && room >= sizeHint
    ensures k >= 1
    decreases room
  {
    if len <= sizeHint - HeaderSize || room - sizeHint < sizeHint then 1
    else 1 + BlocksUsed(len - (sizeHint - HeaderSize), sizeHint, room - sizeHint)
  }

  /** Number of data bytes those blocks hold. */
  function BytesUsed(len: nat, sizeHint: nat, room: nat): (c: nat)
    requires HeaderSize < sizeHint <= VariableEntryMaxSize && room >= sizeHint
    ensures c <= len
    decreases room
  {
    var b := sizeHint - HeaderSize;
    if len <= b then len
    else if room - sizeHint < sizeHint then b
    else b + BytesUsed(len - b, sizeHint, room - sizeHint)
  }

  /** writeVariableData fills whole blocks that fit into the destination,
      consumes all data or as much as those blocks hold, and stops early
      only when the next block would not fit. */
  lemma {:induction false} BlocksUsedMeaning(len: nat, sizeHint: nat, room: nat)
    requires HeaderSize < sizeHint <= VariableEntryMaxSize && room >= sizeHint
    ensures BlocksUsed(len, sizeHint, room) * sizeHint <= room
    ensures BytesUsed(len, sizeHint, room) == Min(len, BlocksUsed(len, sizeHint, room) * (sizeHint - HeaderSize))
    ensures BytesUsed(len, sizeHint, room) < len ==> room < (BlocksUsed(len, sizeHint, room) + 1) * sizeHint
    decreases room
  {
    var b := sizeHint - HeaderSize;
    var k := BlocksUsed(len, sizeHint, room);
    if len > b && room - sizeHint >= sizeHint {
      BlocksUsedMeaning(len - b, sizeHint, room - sizeHint);
      var k' := BlocksUsed(len - b, sizeHint, room - sizeHint);
      MulSucc(k', sizeHint);
      MulSucc(k', b);
      MulSucc(k, sizeHint);
    } else {
      assert k == 1;
    }
  }

  /** The first block writeVariableData stores for the data still to be
      written: a full continuation block, or the last block padded with
      zeros. */
  function FirstBlock(rest: seq<byte>, sizeHint: nat): (blk: seq<byte>)
    requires HeaderSize < sizeHint <= VariableEntryMaxSize && |rest| > 0
    ensures |blk| == sizeHint
  {
    var b := sizeHint - HeaderSize;
    if |rest| <= b then HeaderBytes(false, |rest|) + rest + Zeros(b - |rest|)
    else HeaderBytes(true, b) + rest[..b]
  }

  /** writeVariableData goes on with another block when data is left and
      another block fits. */
  predicate Continues(len: nat, sizeHint: nat, room: nat)
    requires HeaderSize < sizeHint <= VariableEntryMaxSize && room >= sizeHint
  {
    len > sizeHint - HeaderSize && room - sizeHint >= sizeHint
  }

  /** The bytes writeVariableData stores for data when room bytes of
      destination are available. */
  function EncodeBlocks(data: seq<byte>, sizeHint: nat, room: nat): (e: seq<byte>)
    requires HeaderSize < sizeHint <= VariableEntryMaxSize && |data| > 0 && room >= sizeHint
    ensures sizeHint <= |e| <= room
    decreases room
  {
    FirstBlock(data, sizeHint)
      + if Continues(|data|, sizeHint, room)
        then EncodeBlocks(data[sizeHint - HeaderSize..], sizeHint, room - sizeHint)
        else []
  }

  lemma MulSucc(k: nat, h: nat)
    ensures (k + 1) * h == k * h + h
  {
  }

  /** The encoding is BlocksUsed blocks of sizeHint bytes. */
  lemma {:induction false} EncodeBlocksLength(data: seq<byte>, sizeHint: nat, room: nat)
    requires HeaderSize < sizeHint <= VariableEntryMaxSize && |data| > 0 && room >= sizeHint
    ensures |EncodeBlocks(data, sizeHint, room)| == BlocksUsed(|data|, sizeHint, room) * sizeHint
    decreases room
  {
    if Continues(|data|, sizeHint, room) {
      var b := sizeHint - HeaderSize;
      EncodeContinues(data, sizeHint, room);
      EncodeBlocksLength(data[b..], sizeHint, room - sizeHint);
      MulSucc(BlocksUsed(|data| - b, sizeHint, room - sizeHint), sizeHint);
    } else {
      EncodeEnds(data, sizeHint, room);
    }
  }

  /** While data is left and another block fits, the encoding is the first
      block followed by the encoding of the remaining data in the remaining
      room. */
  lemma EncodeContinues(rest: seq<byte>, sizeHint: nat, room: nat)
    requires HeaderSize < sizeHint <= VariableEntryMaxSize && |rest| > 0 && room >= sizeHint
    requires Continues(|rest|, sizeHint, room)
    ensures EncodeBlocks(rest, sizeHint, room)
            == FirstBlock(rest, sizeHint) + EncodeBlocks(rest[sizeHint - HeaderSize..], sizeHint, room - sizeHint)
  {
  }

  /** Otherwise the first block is all of it. */
  lemma EncodeEnds(rest: seq<byte>, sizeHint: nat, room: nat)
    requires HeaderSize < sizeHint <= VariableEntryMaxSize && |rest| > 0 && room >= sizeHint
    requires !Continues(|rest|, sizeHint, room)
    ensures EncodeBlocks(rest, sizeHint, room) == FirstBlock(rest, sizeHint)
  {
  }

  /** BlocksUsed in the terms of writeVariableData's loop. */
  lemma BlocksAfterBlock(len: nat, sizeHint: nat, room: nat)
    requires HeaderSize < sizeHint <= VariableEntryMaxSize && room >= sizeHint
    ensures var left := len - Min(len, sizeHint - HeaderSize);
            if left == 0 || room - sizeHint < sizeHint
            then BlocksUsed(len, sizeHint, room) == 1
            else BlocksUsed(len, sizeHint, room) == 1 + BlocksUsed(left, sizeHint, room - sizeHint)
  {
  }

  /** The counts advance by one block and its chunk while writing goes on,
      and are one block and its chunk at the last block. */
  lemma CountsStep(len: nat, sizeHint: nat, room: nat)
    requires HeaderSize < sizeHint <= VariableEntryMaxSize && room >= sizeHint
    ensures Continues(len, sizeHint, room) ==>
              BlocksUsed(len, sizeHint, room) == 1 + BlocksUsed(len - (sizeHint - HeaderSize), sizeHint, room - sizeHint) &&
              BytesUsed(len, sizeHint, room) == sizeHint - HeaderSize + BytesUsed(len - (sizeHint - HeaderSize), sizeHint, room - sizeHint)
    ensures !Continues(len, sizeHint, room) ==>
              BlocksUsed(len, sizeHint, room) == 1 && BytesUsed(len, sizeHint, room) == Min(len, sizeHint - HeaderSize)
  {
  }

  /** memcpy */
  method CopyBytes(dest: array<byte>, at: nat, src: seq<byte>)
    requires at + |src| <= dest.Length
    modifies dest
    ensures dest[..] == old(dest[..])[..at] + src + old(dest[..])[at + |src|..]
  {
    forall i | 0 <= i < |src| {
      dest[at + i] := src[i];
    }
    assert dest[..] == old(dest[..])[..at] + src + old(dest[..])[at + |src|..] by {
      assert dest[..at] == old(dest[..at]) && dest[at..at + |src|] == src && dest[at + |src|..] == old(dest[at + |src|..]);
      assert dest[..] == dest[..at] + dest[at..at + |src|] + dest[at + |src|..];
    }
  }

  /** The state of writeVariableData's loop: the blocks written so far, the
      room left behind them, the data not yet stored and the number of
      blocks. */
  datatype WriteState = WriteState(written: seq<byte>, left: nat, rest: seq<byte>, blocks: nat)

  /** One pass of the loop: the block for the data still to store is
      appended. */
  function StoreBlock(s: WriteState, sizeHint: nat): (t: WriteState)
    requires HeaderSize < sizeHint <= VariableEntryMaxSize && |s.rest| > 0 && s.left >= sizeHint
    ensures |t.written| + t.left == |s.written| + s.left
  {
    WriteState(s.written + FirstBlock(s.rest, sizeHint), s.left - sizeHint,
               s.rest[Min(|s.rest|, sizeHint - HeaderSize)..], s.blocks + 1)
  }

  /** The loop run to its end: it stops after the block that holds the last
      of the data, or when the next block would not fit. */
  function RunWrite(s: WriteState, sizeHint: nat): (t: WriteState)
    requires HeaderSize < sizeHint <= VariableEntryMaxSize && |s.rest| > 0 && s.left >= sizeHint
    ensures |t.written| + t.left == |s.written| + s.left
    decreases s.left
  {
    var next := StoreBlock(s, sizeHint);
    if |next.rest| == 0 || next.left < sizeHint then next else RunWrite(next, sizeHint)
  }

  /** What the loop writes: the encoding of the data behind the blocks
      already written. */
  lemma {:induction false} RunWriteWritten(s: WriteState, sizeHint: nat)
    requires HeaderSize < sizeHint <= VariableEntryMaxSize && |s.rest| > 0 && s.left >= sizeHint
    ensures RunWrite(s, sizeHint).written == s.written + EncodeBlocks(s.rest, sizeHint, s.left)
    decreases s.left
  {
    var next := StoreBlock(s, sizeHint);
    if |next.rest| == 0 || next.left < sizeHint {
      EncodeEnds(s.rest, sizeHint, s.left);
    } else {
      assert next.rest == s.rest[sizeHint - HeaderSize..] && next.left == s.left - sizeHint;
      EncodeContinues(s.rest, sizeHint, s.left);
      RunWriteWritten(next, sizeHint);
      Regroup(s.written, FirstBlock(s.rest, sizeHint), EncodeBlocks(next.rest, sizeHint, next.left),
              EncodeBlocks(s.rest, sizeHint, s.left));
    }
  }

  lemma Regroup(a: seq<byte>, b: seq<byte>, c: seq<byte>, e: seq<byte>)
    requires e == b + c
    ensures (a + b) + c == a + e
  {
  }

  /** The data the loop leaves unconsumed: what its blocks do not hold. */
  lemma {:induction false} RunWriteRest(s: WriteState, sizeHint: nat)
    requires HeaderSize < sizeHint <= VariableEntryMaxSize && |s.rest| > 0 && s.left >= sizeHint
    ensures RunWrite(s, sizeHint).rest == s.rest[BytesUsed(|s.rest|, sizeHint, s.left)..]
    decreases s.left
  {
    var next := StoreBlock(s, sizeHint);
    BytesAfterBlock(|s.rest|, sizeHint, s.left);
    if |next.rest| > 0 && next.left >= sizeHint {
      RunWriteRest(next, sizeHint);
      RestStep(s.rest, sizeHint - HeaderSize, next.rest, BytesUsed(|next.rest|, sizeHint, next.left),
               RunWrite(next, sizeHint).rest, BytesUsed(|s.rest|, sizeHint, s.left));
    }
  }

  lemma RestStep(rest: seq<byte>, b: nat, nextRest: seq<byte>, k: nat, final: seq<byte>, used: nat)
    requires b + k <= |rest| && nextRest == rest[b..] && k <= |nextRest| && final == nextRest[k..] && used == b + k
    ensures final == rest[used..]
  {
  }

  /** BytesUsed in the terms of writeVariableData's loop, which tests for
      data left and room left after storing a block. */
  lemma BytesAfterBlock(len: nat, sizeHint: nat, room: nat)
    requires HeaderSize < sizeHint <= VariableEntryMaxSize && room >= sizeHint
    ensures var left := len - Min(len, sizeHint - HeaderSize);
            if left == 0 || room - sizeHint < sizeHint
            then BytesUsed(len, sizeHint, room) == len - left
            else BytesUsed(len, sizeHint, room) == sizeHint - HeaderSize + BytesUsed(left, sizeHint, room - sizeHint)
  {
  }

  /** The blocks the loop counts. */
  lemma {:induction false} RunWriteBlocks(s: WriteState, sizeHint: nat)
    requires HeaderSize < sizeHint <= VariableEntryMaxSize && |s.rest| > 0 && s.left >= sizeHint
    ensures RunWrite(s, sizeHint).blocks == s.blocks + BlocksUsed(|s.rest|, sizeHint, s.left)
    decreases s.left
  {
    var next := StoreBlock(s, sizeHint);
    BlocksAfterBlock(|s.rest|, sizeHint, s.left);
    if |next.rest| > 0 && next.left >= sizeHint {
      RunWriteBlocks(next, sizeHint);
    }
  }

  /** The destination after one more block: the blocks written, then the
      original bytes behind them. */
  lemma StoreSplice(written: seq<byte>, original: seq<byte>, block: seq<byte>)
    requires |written| + |block| <= |original|
    ensures var image := written + original[|written|..];
            image[..|written|] + block + image[|written| + |block|..]
            == (written + block) + original[|written + block|..]
  {
    var image := written + original[|written|..];
    assert image[..|written|] == written;
    assert image[|written| + |block|..] == original[|written + block|..];
  }

  /** The block as writeVariableData assembles it: header, chunk, and
      zeros up to the block size when the chunk is the last one. */
  lemma BlockLayout(rest: seq<byte>, sizeHint: nat, chunkSize: nat, last: bool, block: seq<byte>)
    requires HeaderSize < sizeHint <= VariableEntryMaxSize && |rest| > 0
    requires chunkSize == Min(|rest|, sizeHint - HeaderSize) && last == (|rest| - chunkSize == 0)
    requires block == HeaderBytes(!last, chunkSize) + rest[..chunkSize]
                      + (if last then Zeros(sizeHint - HeaderSize - chunkSize) else [])
    ensures block == FirstBlock(rest, sizeHint)
  {
    if last {
      assert rest[..chunkSize] == rest;
    } else {
      assert rest[..chunkSize] + [] == rest[..chunkSize];
    }
  }

  /** One pass of writeVariableData's loop: counts the block, stores the
      header, the next chunk of data and, for the last block of the entry,
      the zero-filled tail at pos, and moves past the block. */
  method StorePass(dest: array<byte>, pos: nat, left: nat, rest: seq<byte>, blockCount: nat, sizeHint: nat)
    returns (pos': nat, left': nat, rest': seq<byte>, blockCount': nat)
    requires HeaderSize < sizeHint <= VariableEntryMaxSize && |rest| > 0
    requires left >= sizeHint && pos + left == dest.Length
    modifies dest
    ensures pos' == pos + sizeHint && left' == left - sizeHint && blockCount' == blockCount + 1
    ensures rest' == rest[Min(|rest|, sizeHint - HeaderSize)..]
    ensures dest[..] == old(dest[..])[..pos] + FirstBlock(rest, sizeHint) + old(dest[..])[pos + sizeHint..]
  {
    blockCount' := blockCount + 1;
    left' := left - sizeHint;
    var blockDataSize := sizeHint - HeaderSize;
    var chunkSize := if |rest| >= blockDataSize then blockDataSize else |rest|;
    var last := |rest| - chunkSize == 0;
    var padding := if last then Zeros(blockDataSize - chunkSize) else [];
    var block := HeaderBytes(!last, chunkSize) + rest[..chunkSize] + padding;
    BlockLayout(rest, sizeHint, chunkSize, last, block);
    CopyBytes(dest, pos, block);
    rest' := rest[chunkSize..];
    pos' := pos + sizeHint;
  }

  /** StorePass on the loop's state: the destination stays the blocks
      written followed by the original bytes, and the state advances as
      StoreBlock says. */
  method WritePass(dest: array<byte>, pos: nat, left: nat, rest: seq<byte>, blockCount: nat, sizeHint: nat,
                   ghost written: seq<byte>, ghost original: seq<byte>)
    returns (pos': nat, left': nat, rest': seq<byte>, blockCount': nat, ghost written': seq<byte>)
    requires HeaderSize < sizeHint <= VariableEntryMaxSize && |rest| > 0
    requires left >= sizeHint && pos == |written| && pos + left == dest.Length
    requires |original| == dest.Length && dest[..] == written + original[pos..]
    modifies dest
    ensures WriteState(written', left', rest', blockCount') == StoreBlock(WriteState(written, left, rest, blockCount), sizeHint)
    ensures pos' == |written'| && pos' + left' == dest.Length && |rest'| <= |rest|
    ensures dest[..] == written' + original[pos'..]
  {
    ghost var block := FirstBlock(rest, sizeHint);
    StoreSplice(written, original, block);
    pos', left', rest', blockCount' := StorePass(dest, pos, left, rest, blockCount, sizeHint);
    written' := written + block;
  }

  /** writeVariableData(dest, dest.Length, data, |data|, sizeHint,
      &blockCount), the array being the destination window: writes as many
      blocks as fit, returns the number of data bytes consumed and the number
      of blocks written, and leaves the bytes behind the blocks as they were.
      When not even one block fits it writes nothing and returns 0 (the block
      count is then not written by the source; the model reports 0, the
      value callers initialise it with). */
  method WriteVariableData(dest: array<byte>, data: seq<byte>, sizeHint: nat)
    returns (consumed: nat, blockCount: nat)
    requires |data| > 0 && HeaderSize < sizeHint <= VariableEntryMaxSize
    modifies dest
    ensures dest.Length < sizeHint ==> consumed == 0 && blockCount == 0 && dest[..] == old(dest[..])
    ensures dest.Length >= sizeHint ==>
              var e := EncodeBlocks(data, sizeHint, dest.Length);
              blockCount == BlocksUsed(|data|, sizeHint, dest.Length) &&
              consumed == BytesUsed(|data|, sizeHint, dest.Length) &&
              dest[..] == e + old(dest[..])[|e|..]
  {
    if dest.Length < sizeHint {
      return 0, 0;
    }
    ghost var start := WriteState([], dest.Length, data, 0);
    RunWriteWritten(start, sizeHint);
    RunWriteRest(start, sizeHint);
    RunWriteBlocks(start, sizeHint);
    assert [] + EncodeBlocks(data, sizeHint, dest.Length) == EncodeBlocks(data, sizeHint, dest.Length);
    consumed, blockCount := WriteBlocks(dest, data, sizeHint);
  }

  /** The do-while loop of writeVariableData, entered once a block fits. */
  method WriteBlocks(dest: array<byte>, data: seq<byte>, sizeHint: nat)
    returns (consumed: nat, blockCount: nat)
    requires |data| > 0 && HeaderSize < sizeHint <= VariableEntryMaxSize && dest.Length >= sizeHint
    modifies dest
    ensures var t := RunWrite(WriteState([], dest.Length, data, 0), sizeHint);
            dest[..] == t.written + old(dest[..])[|t.written|..] &&
            blockCount == t.blocks && consumed == |data| - |t.rest|
  {
    var rest := data;
    var left := dest.Length;
    var pos := 0;
    blockCount := 0;
    ghost var original := dest[..];
    ghost var written: seq<byte> := [];
    ghost var final := RunWrite(WriteState([], dest.Length, data, 0), sizeHint);
    while true
      invariant left >= sizeHint && pos == |written| && pos + left == dest.Length && 0 < |rest| <= |data|
      invariant |original| == dest.Length && dest[..] == written + original[pos..]
      invariant RunWrite(WriteState(written, left, rest, blockCount), sizeHint) == final
      decreases left
    {
      pos, left, rest, blockCount, written := WritePass(dest, pos, left, rest, blockCount, sizeHint, written, original);
      if |rest| == 0 || left < sizeHint {
        break;
      }
    }
    consumed := |data| - |rest|;
  }

  // ---------------------------------------------------------------------
  // Decoding

  datatype ReadResult = ReadResult(complete: bool, data: seq<byte>)

  /** readVariableData as a state machine over the bytes src still to read,
      with read the data collected so far. The result is complete when a
      block without continuation was reached, and incomplete when the window
      ended first (the entry goes on in the next segment). None when a header
      claims more bytes than the window holds, which the source leaves to
      its assertions. */
  function DecodeFrom(read: seq<byte>, src: seq<byte>): (r: Option<ReadResult>)
    requires |src| > HeaderSize
    decreases |src|
  {
    var header := ParseHeader(src[0], src[1]);
    if HeaderSize + header.size > |src| then None
    else
      var chunk := src[HeaderSize..HeaderSize + header.size];
      if !header.continuation then Some(ReadResult(true, read + chunk))
      else if |src| - (HeaderSize + header.size) > HeaderSize
      then DecodeFrom(read + chunk, src[HeaderSize + header.size..])
      else Some(ReadResult(false, read + chunk))
  }

  /** readVariableData over one block that a well-formed header opens. */
  lemma DecodeBlock(read: seq<byte>, continuation: bool, chunk: seq<byte>, after: seq<byte>)
    requires |chunk| < 0x4000 && |chunk| + |after| > 0
    ensures DecodeFrom(read, HeaderBytes(continuation, |chunk|) + chunk + after)
            == if !continuation then Some(ReadResult(true, read + chunk))
               else if |after| > HeaderSize then DecodeFrom(read + chunk, after)
               else Some(ReadResult(false, read + chunk))
  {
    var src := HeaderBytes(continuation, |chunk|) + chunk + after;
    ParseHeaderBytes(continuation, |chunk|);
    assert src[0] == HeaderBytes(continuation, |chunk|)[0] && src[1] == HeaderBytes(continuation, |chunk|)[1];
    assert src[HeaderSize..HeaderSize + |chunk|] == chunk;
    assert src[HeaderSize + |chunk|..] == after;
  }

  /** Reading back what writeVariableData stored: an entry written whole is
      read back whole and complete, whatever follows it; an entry cut short
      by the end of the destination is read back as the bytes that were
      written, marked incomplete, when the window ends within a header's
      size of the last block. */
  lemma {:induction false} DecodeEncode(read: seq<byte>, data: seq<byte>, tail: seq<byte>, sizeHint: nat, room: nat)
    requires HeaderSize < sizeHint <= VariableEntryMaxSize && |data| > 0 && room >= sizeHint
    requires BytesUsed(|data|, sizeHint, room) == |data| || |tail| <= HeaderSize
    ensures DecodeFrom(read, EncodeBlocks(data, sizeHint, room) + tail)
            == Some(ReadResult(BytesUsed(|data|, sizeHint, room) == |data|,
                               read + data[..BytesUsed(|data|, sizeHint, room)]))
    decreases room
  {
    var b := sizeHint - HeaderSize;
    if Continues(|data|, sizeHint, room) {
      var chunk, rest := data[..b], data[b..];
      assert chunk + rest == data;
      var later := EncodeBlocks(rest, sizeHint, room - sizeHint) + tail;
      CountsStep(|data|, sizeHint, room);
      DecodeEncode(read + chunk, rest, tail, sizeHint, room - sizeHint);
      EncodeSplit(data, tail, sizeHint, room);
      DecodeContinuation(read, chunk, rest, later, BytesUsed(|rest|, sizeHint, room - sizeHint),
                         EncodeBlocks(data, sizeHint, room) + tail, BytesUsed(|data|, sizeHint, room));
    } else {
      DecodeEncodeLast(read, data, tail, sizeHint, room);
    }
  }

  /** The inductive step of DecodeEncode: reading a continuation block in
      front of blocks that read back as a prefix of the data behind its
      chunk reads back the chunk followed by that prefix. */
  lemma DecodeContinuation(read: seq<byte>, chunk: seq<byte>, rest: seq<byte>, later: seq<byte>, usedLater: nat,
                           src: seq<byte>, used: nat)
    requires |chunk| < 0x4000 && |later| > HeaderSize && usedLater <= |rest|
    requires src == HeaderBytes(true, |chunk|) + chunk + later && used == |chunk| + usedLater
    requires DecodeFrom(read + chunk, later) == Some(ReadResult(usedLater == |rest|, read + chunk + rest[..usedLater]))
    ensures DecodeFrom(read, src) == Some(ReadResult(used == |chunk + rest|, read + (chunk + rest)[..used]))
  {
    DecodeBlock(read, true, chunk, later);
    assert read + chunk + rest[..usedLater] == read + (chunk + rest)[..used];
  }

  /** A continuing encoding is a continuation block in front of the rest. */
  lemma EncodeSplit(data: seq<byte>, tail: seq<byte>, sizeHint: nat, room: nat)
    requires HeaderSize < sizeHint <= VariableEntryMaxSize && |data| > 0 && room >= sizeHint
    requires Continues(|data|, sizeHint, room)
    ensures EncodeBlocks(data, sizeHint, room) + tail
            == HeaderBytes(true, |data[..sizeHint - HeaderSize]|) + data[..sizeHint - HeaderSize]
               + (EncodeBlocks(data[sizeHint - HeaderSize..], sizeHint, room - sizeHint) + tail)
  {
    var b := sizeHint - HeaderSize;
    EncodeContinues(data, sizeHint, room);
    assert |data[..b]| == b;
    Reassociate(HeaderBytes(true, b), data[..b], FirstBlock(data, sizeHint),
                EncodeBlocks(data[b..], sizeHint, room - sizeHint), EncodeBlocks(data, sizeHint, room), tail);
  }

  lemma Reassociate(header: seq<byte>, chunk: seq<byte>, first: seq<byte>, later: seq<byte>, e: seq<byte>, tail: seq<byte>)
    requires first == header + chunk && e == first + later
    ensures e + tail == header + chunk + (later + tail)
  {
  }

  /** The base case of DecodeEncode: the entry's last block, holding the end
      of the data or, when the destination is full, a continuation chunk
      the window ends behind. */
  lemma DecodeEncodeLast(read: seq<byte>, data: seq<byte>, tail: seq<byte>, sizeHint: nat, room: nat)
    requires HeaderSize < sizeHint <= VariableEntryMaxSize && |data| > 0 && room >= sizeHint
    requires !Continues(|data|, sizeHint, room)
    requires |data| <= sizeHint - HeaderSize || |tail| <= HeaderSize
    ensures DecodeFrom(read, EncodeBlocks(data, sizeHint, room) + tail)
            == Some(ReadResult(BytesUsed(|data|, sizeHint, room) == |data|,
                               read + data[..BytesUsed(|data|, sizeHint, room)]))
  {
    var b := sizeHint - HeaderSize;
    EncodeEnds(data, sizeHint, room);
    if |data| <= b {
      assert EncodeBlocks(data, sizeHint, room) + tail == HeaderBytes(false, |data|) + data + (Zeros(b - |data|) + tail);
      DecodeBlock(read, false, data, Zeros(b - |data|) + tail);
      assert data[..|data|] == data;
    } else {
      assert EncodeBlocks(data, sizeHint, room) + tail == HeaderBytes(true, |data[..b]|) + data[..b] + tail;
      DecodeBlock(read, true, data[..b], tail);
    }
  }

  /** readVariableData(src + at, srcSize, data, &dataSize): returns whether
      the entry was complete in the window and the data it collected; the
      data size the source reports is |data|. */
  method ReadVariableData(src: array<byte>, at: nat, srcSize: nat) returns (complete: bool, data: seq<byte>)
    requires at + srcSize <= src.Length && srcSize > HeaderSize
    requires DecodeFrom([], src[at..at + srcSize]).Some?
    ensures DecodeFrom([], src[at..at + srcSize]) == Some(ReadResult(complete, data))
  {
    var pos := at;
    var left := srcSize;
    data := [];
    while true
      invariant left > HeaderSize && pos + left == at + srcSize
      invariant DecodeFrom([], src[at..at + srcSize]) == DecodeFrom(data, src[pos..pos + left])
      decreases left
    {
      ghost var window := src[pos..pos + left];
      var header := ParseHeader(src[pos], src[pos + 1]);
      assert header == ParseHeader(window[0], window[1]);
      if HeaderSize + header.size > left {
        // the window does not hold the block: excluded by the precondition
        assert false;
        complete := false;
        return;
      }
      assert window[HeaderSize..HeaderSize + header.size] == src[pos + HeaderSize..pos + HeaderSize + header.size];
      data := data + src[pos + HeaderSize..pos + HeaderSize + header.size];
      if !header.continuation {
        return true, data;
      }
      var blockSize := HeaderSize + header.size;
      assert window[blockSize..] == src[pos + blockSize..pos + left];
      pos := pos + blockSize;
      left := left - blockSize;
      if left <= HeaderSize {
        return false, data;
      }
    }
  }

  // ---------------------------------------------------------------------
  // Finding an entry

  /** The blocks of an entry that writeVariableData stored whole: full
      continuation blocks, then the zero-padded last block. */
  function EntryBlocks(data: seq<byte>, sizeHint: nat): (e: seq<byte>)
    requires HeaderSize < sizeHint <= VariableEntryMaxSize && |data| > 0
    ensures |e| >= sizeHint
    decreases |data|
  {
    FirstBlock(data, sizeHint)
      + if |data| > sizeHint - HeaderSize then EntryBlocks(data[sizeHint - HeaderSize..], sizeHint) else []
  }

  /** When the destination holds all of the data, writeVariableData stores
      exactly the entry's blocks. */
  lemma {:induction false} EncodeWhole(data: seq<byte>, sizeHint: nat, room: nat)
    requires HeaderSize < sizeHint <= VariableEntryMaxSize && |data| > 0 && room >= sizeHint
    requires BytesUsed(|data|, sizeHint, room) == |data|
    ensures EncodeBlocks(data, sizeHint, room) == EntryBlocks(data, sizeHint)
    decreases room
  {
    var b := sizeHint - HeaderSize;
    if Continues(|data|, sizeHint, room) {
      EncodeContinues(data, sizeHint, room);
      EncodeWhole(data[b..], sizeHint, room - sizeHint);
    } else {
      EncodeEnds(data, sizeHint, room);
    }
  }

  /** The blocks writeVariableData stores for each of several entries
      stored whole. */
  function EncodeEntries(datas: seq<seq<byte>>, sizeHint: nat): (es: seq<seq<byte>>)
    requires HeaderSize < sizeHint <= VariableEntryMaxSize
    requires forall i :: 0 <= i < |datas| ==> |datas[i]| > 0
    ensures |es| == |datas|
    ensures forall i :: 0 <= i < |datas| ==> es[i] == EntryBlocks(datas[i], sizeHint)
  {
    if |datas| == 0 then [] else [EntryBlocks(datas[0], sizeHint)] + EncodeEntries(datas[1..], sizeHint)
  }

  /** Byte strings one after the other. */
  function Concat(es: seq<seq<byte>>): (buf: seq<byte>)
  {
    if |es| == 0 then [] else es[0] + Concat(es[1..])
  }

  datatype FindResult = Found(offset: nat) | NotFound | Overrun

  /** How far the scan moves past a block: findVariableEntry moves by the
      header and the bytes the header counts; the blocks are sizeHint bytes
      apart. */
  datatype Stride = HeaderStride | BlockStride(sizeHint: nat)

  function StepOf(header: BlockHeader, stride: Stride): (n: nat)
    requires stride.BlockStride? ==> stride.sizeHint > HeaderSize
    ensures n > HeaderSize || (stride.HeaderStride? && n == HeaderSize + header.size)
  {
    match stride
    case HeaderStride => HeaderSize + header.size
    case BlockStride(h) => h
  }

  /** findVariableEntry as a state machine over the buffer, at offset pos
      with counted terminating blocks seen. It counts the blocks without
      continuation and answers the offset of the one that makes the count
      equal search; NotFound, for (size_t)-1, when the buffer ends first;
      Overrun where the source's assertion that a block fits the buffer
      fails. */
  function FindAt(buf: seq<byte>, pos: nat, counted: nat, search: nat, stride: Stride): (r: FindResult)
    requires pos + HeaderSize < |buf|
    requires stride.BlockStride? ==> stride.sizeHint > HeaderSize
    decreases |buf| - pos
  {
    var header := ParseHeader(buf[pos], buf[pos + 1]);
    var counted' := if header.continuation then counted else counted + 1;
    if !header.continuation && counted' == search then Found(pos)
    else
      var step := StepOf(header, stride);
      if |buf| - pos < step then Overrun
      else if |buf| - pos - step > HeaderSize then FindAt(buf, pos + step, counted', search, stride)
      else NotFound
  }

  /** The header of the first block tells whether the entry goes on. */
  lemma FirstBlockHeader(data: seq<byte>, sizeHint: nat)
    requires HeaderSize < sizeHint <= VariableEntryMaxSize && |data| > 0
    ensures ParseHeader(FirstBlock(data, sizeHint)[0], FirstBlock(data, sizeHint)[1]).continuation
            == (|data| > sizeHint - HeaderSize)
  {
    var chunkSize := Min(|data|, sizeHint - HeaderSize);
    var last := |data| - chunkSize == 0;
    BlockLayout(data, sizeHint, chunkSize, last, FirstBlock(data, sizeHint));
    ParseHeaderBytes(!last, chunkSize);
  }

  /** One step of the scan with the block stride past a continuation
      block. */
  lemma FindOver(buf: seq<byte>, pos: nat, counted: nat, search: nat, sizeHint: nat)
    requires HeaderSize < sizeHint && pos + sizeHint + HeaderSize < |buf|
    requires ParseHeader(buf[pos], buf[pos + 1]).continuation
    ensures FindAt(buf, pos, counted, search, BlockStride(sizeHint))
            == FindAt(buf, pos + sizeHint, counted, search, BlockStride(sizeHint))
  {
  }

  /** One step of the scan with the block stride past a terminating
      block. */
  lemma FindLast(buf: seq<byte>, pos: nat, counted: nat, search: nat, sizeHint: nat)
    requires HeaderSize < sizeHint && pos + sizeHint <= |buf|
    requires !ParseHeader(buf[pos], buf[pos + 1]).continuation
    ensures FindAt(buf, pos, counted, search, BlockStride(sizeHint))
            == if search == counted + 1 then Found(pos)
               else if |buf| - (pos + sizeHint) > HeaderSize
               then FindAt(buf, pos + sizeHint, counted + 1, search, BlockStride(sizeHint))
               else NotFound
  {
  }

  /** The bytes e are the blocks of one entry, as far as the headers tell:
      sizeHint bytes each, every block but the last with continuation
      set. */
  predicate IsEntry(e: seq<byte>, sizeHint: nat)
    requires HeaderSize < sizeHint
    decreases |e|
  {
    |e| >= sizeHint &&
    ParseHeader(e[0], e[1]).continuation == (|e| > sizeHint) &&
    (|e| > sizeHint ==> IsEntry(e[sizeHint..], sizeHint))
  }

  /** What writeVariableData stores for a whole entry is an entry as the
      headers tell. */
  lemma {:induction false} EntryBlocksIsEntry(data: seq<byte>, sizeHint: nat)
    requires HeaderSize < sizeHint <= VariableEntryMaxSize && |data| > 0
    ensures IsEntry(EntryBlocks(data, sizeHint), sizeHint)
    decreases |data|
  {
    var b := sizeHint - HeaderSize;
    var e := EntryBlocks(data, sizeHint);
    var first := FirstBlock(data, sizeHint);
    FirstBlockHeader(data, sizeHint);
    if |data| > b {
      var later := EntryBlocks(data[b..], sizeHint);
      assert e == first + later;
      assert e[0] == first[0] && e[1] == first[1] && e[sizeHint..] == later;
      EntryBlocksIsEntry(data[b..], sizeHint);
    } else {
      assert e == first + [];
    }
  }

  /** Scanning one entry with the block stride: its last block is found
      when it completes the count, and otherwise the scan goes on behind
      the entry. */
  lemma {:induction false} FindPastEntry(buf: seq<byte>, pos: nat, end: nat, counted: nat, search: nat, sizeHint: nat)
    requires HeaderSize < sizeHint && pos <= end <= |buf| && IsEntry(buf[pos..end], sizeHint)
    ensures FindAt(buf, pos, counted, search, BlockStride(sizeHint))
            == if search == counted + 1 then Found(end - sizeHint)
               else if |buf| - end > HeaderSize then FindAt(buf, end, counted + 1, search, BlockStride(sizeHint))
               else NotFound
    decreases end - pos
  {
    var w := buf[pos..end];
    assert w[0] == buf[pos] && w[1] == buf[pos + 1];
    if end - pos > sizeHint {
      assert w[sizeHint..] == buf[pos + sizeHint..end];
      FindOver(buf, pos, counted, search, sizeHint);
      FindPastEntry(buf, pos + sizeHint, end, counted, search, sizeHint);
    } else {
      FindLast(buf, pos, counted, search, sizeHint);
    }
  }

  /** The offsets of the last blocks of the entries es laid out from pos. */
  function LastBlocks(es: seq<seq<byte>>, pos: nat, sizeHint: nat): (offsets: seq<nat>)
    requires HeaderSize < sizeHint
    requires forall i :: 0 <= i < |es| ==> IsEntry(es[i], sizeHint)
    ensures |offsets| == |es|
  {
    if |es| == 0 then []
    else
      assert IsEntry(es[0], sizeHint);
      var end := pos + |es[0]|;
      [end - sizeHint] + LastBlocks(es[1..], end, sizeHint)
  }

  /** findVariableEntry with the block stride, on a buffer that ends with
      whole entries from pos on: the search for entry k (counting from 1)
      finds the last block of the k-th entry, and a search for entry 0 or
      behind the last entry finds nothing. */
  lemma {:induction false} FindInEntries(es: seq<seq<byte>>, buf: seq<byte>, pos: nat, counted: nat, search: nat, sizeHint: nat)
    requires HeaderSize < sizeHint && |es| > 0
    requires forall i :: 0 <= i < |es| ==> IsEntry(es[i], sizeHint)
    requires pos + sizeHint <= |buf| && buf[pos..] == Concat(es)
    ensures FindAt(buf, pos, counted, search, BlockStride(sizeHint))
            == if counted < search <= counted + |es|
               then Found(LastBlocks(es, pos, sizeHint)[search - counted - 1])
               else NotFound
    decreases |es|
  {
    var end := pos + |es[0]|;
    assert IsEntry(es[0], sizeHint);
    EntriesSplit(buf, pos, es[0], Concat(es[1..]));
    if |es| > 1 {
      assert IsEntry(es[1..][0], sizeHint);
      ConcatLength(es[1..], sizeHint);
      FindInEntries(es[1..], buf, end, counted + 1, search, sizeHint);
    } else {
      assert |buf| - end == 0;
    }
    FindEntryStep(es, buf, pos, counted, search, sizeHint, end,
                  if |buf| - end > 2 then FindAt(buf, end, counted + 1, search, BlockStride(sizeHint)) else NotFound);
  }

  /** The induction step of FindInEntries: what the search finds from the
      first entry on, given what it finds behind that entry. */
  lemma FindEntryStep(es: seq<seq<byte>>, buf: seq<byte>, pos: nat, counted: nat, search: nat, sizeHint: nat,
                      end: nat, next: FindResult)
    requires HeaderSize < sizeHint && |es| > 0
    requires forall i :: 0 <= i < |es| ==> IsEntry(es[i], sizeHint)
    requires pos + sizeHint <= |buf| && buf[pos..] == Concat(es)
    requires end == pos + |es[0]|
    requires next == if |buf| - end > 2 then FindAt(buf, end, counted + 1, search, BlockStride(sizeHint)) else NotFound
    requires next == if counted + 1 < search <= counted + 1 + |es[1..]|
                     then Found(LastBlocks(es[1..], end, sizeHint)[search - (counted + 1) - 1])
                     else NotFound
    ensures FindAt(buf, pos, counted, search, BlockStride(sizeHint))
            == if counted < search <= counted + |es|
               then Found(LastBlocks(es, pos, sizeHint)[search - counted - 1])
               else NotFound
  {
    assert IsEntry(es[0], sizeHint);
    EntriesSplit(buf, pos, es[0], Concat(es[1..]));
    FindPastEntry(buf, pos, end, counted, search, sizeHint);
    LastBlocksUnfold(es, pos, sizeHint, end);
    FindStep(FindAt(buf, pos, counted, search, BlockStride(sizeHint)), next, counted, search,
             |es|, |es[1..]|, LastBlocks(es, pos, sizeHint), end - sizeHint, LastBlocks(es[1..], end, sizeHint));
  }

  /** One entry of the search: the result is the entry's own last block when
      it is the one searched for, and what the search behind it finds
      otherwise. */
  lemma FindStep(r: FindResult, next: FindResult, counted: nat, search: nat, n: nat, m: nat,
                 offsets: seq<nat>, last: nat, tail: seq<nat>)
    requires n == m + 1 && |tail| == m && offsets == [last] + tail
    requires r == if search == counted + 1 then Found(last) else next
    requires next == if counted + 1 < search <= counted + 1 + m
                     then Found(tail[search - (counted + 1) - 1])
                     else NotFound
    ensures r == if counted < search <= counted + n then Found(offsets[search - counted - 1]) else NotFound
  {
  }

  /** Whole entries take at least a block. */
  lemma ConcatLength(es: seq<seq<byte>>, sizeHint: nat)
    requires HeaderSize < sizeHint && |es| > 0 && IsEntry(es[0], sizeHint)
    ensures |Concat(es)| >= sizeHint
  {
  }

  /** The offsets are the first entry's last block followed by those of the
      entries behind it. */
  lemma LastBlocksUnfold(es: seq<seq<byte>>, pos: nat, sizeHint: nat, end: nat)
    requires HeaderSize < sizeHint && |es| > 0 && end == pos + |es[0]| && end >= sizeHint
    requires forall i :: 0 <= i < |es| ==> IsEntry(es[i], sizeHint)
    ensures LastBlocks(es, pos, sizeHint) == [end - sizeHint] + LastBlocks(es[1..], end, sizeHint)
  {
  }

  lemma EntriesSplit(buf: seq<byte>, pos: nat, e: seq<byte>, rest: seq<byte>)
    requires pos <= |buf| && buf[pos..] == e + rest
    ensures buf[pos..pos + |e|] == e && buf[pos + |e|..] == rest
  {
    assert buf[pos..pos + |e|] == buf[pos..][..|e|];
    assert buf[pos + |e|..] == buf[pos..][|e|..];
  }

  /** findVariableEntry with the block stride, on a buffer of entries that
      writeVariableData stored whole one after the other: the search for
      entry k (counting from 1) finds the last block of the k-th entry, and
      a search for entry 0 or behind the last entry finds nothing. */
  lemma FindWholeEntries(datas: seq<seq<byte>>, search: nat, sizeHint: nat)
    requires HeaderSize < sizeHint <= VariableEntryMaxSize && |datas| > 0
    requires forall i :: 0 <= i < |datas| ==> |datas[i]| > 0
    ensures var es := EncodeEntries(datas, sizeHint);
            (forall i :: 0 <= i < |es| ==> IsEntry(es[i], sizeHint)) &&
            FindAt(Concat(es), 0, 0, search, BlockStride(sizeHint))
            == if 1 <= search <= |datas| then Found(LastBlocks(es, 0, sizeHint)[search - 1]) else NotFound
  {
    var es := EncodeEntries(datas, sizeHint);
    forall i | 0 <= i < |es|
      ensures IsEntry(es[i], sizeHint)
    {
      EntryBlocksIsEntry(datas[i], sizeHint);
    }
    assert Concat(es)[0..] == Concat(es);
    ConcatLength(es, sizeHint);
    FindInEntries(es, Concat(es), 0, 0, search, sizeHint);
  }

  /** The search of findVariableEntry as the source writes it, on the first
      size bytes of buffer. */
  method FindVariableEntry(buffer: array<byte>, size: nat, search: nat) returns (r: FindResult)
    requires HeaderSize < size <= buffer.Length
    ensures r == FindAt(buffer[..size], 0, 0, search, HeaderStride)
  {
    var pos := 0;
    var left := size;
    var localIndex := 0;
    while true
      invariant left > HeaderSize && pos + left == size
      invariant FindAt(buffer[..size], 0, 0, search, HeaderStride)
                == FindAt(buffer[..size], pos, localIndex, search, HeaderStride)
      decreases left
    {
      var header := ParseHeader(buffer[pos], buffer[pos + 1]);
      assert buffer[pos] == buffer[..size][pos] && buffer[pos + 1] == buffer[..size][pos + 1];
      ghost var counted := localIndex;
      if !header.continuation {
        localIndex := localIndex + 1;
      }
      var blockSize := HeaderSize + header.size;
      FindHeaderStep(buffer[..size], pos, left, header, counted, localIndex, search, blockSize);
      if !header.continuation && localIndex == search {
        return Found(pos);
      }
      if left < blockSize {
        return Overrun;
      }
      pos := pos + blockSize;
      left := left - blockSize;
      if left <= HeaderSize {
        return NotFound;
      }
    }
  }

  /** One pass of findVariableEntry's loop is one step of the scan with
      the header stride. */
  lemma FindHeaderStep(buf: seq<byte>, pos: nat, left: nat, header: BlockHeader, counted: nat, next: nat,
                       search: nat, blockSize: nat)
    requires pos + left == |buf| && left > HeaderSize
    requires header == ParseHeader(buf[pos], buf[pos + 1]) && blockSize == HeaderSize + header.size
    requires next == if header.continuation then counted else counted + 1
    ensures FindAt(buf, pos, counted, search, HeaderStride)
            == if !header.continuation && next == search then Found(pos)
               else if left < blockSize then Overrun
               else if left - blockSize <= HeaderSize then NotFound
               else FindAt(buf, pos + blockSize, next, search, HeaderStride)
  {
  }

  /** Two one-byte entries with a size hint of 4: findVariableEntry steps by
      the header's size, three bytes, past the first entry's padded last
      block, reads the padding and the next header as a header of 256 bytes
      and answers offset 3 for the second entry, where the block stride
      answers 4; searching for a third entry runs past the buffer instead of
      finding nothing. */
  lemma FindMisreadsPadding()
    ensures Concat(EncodeEntries([[7], [9]], 4)) == [4, 0, 7, 0, 4, 0, 9, 0]
    ensures FindAt(Concat(EncodeEntries([[7], [9]], 4)), 0, 0, 2, HeaderStride) == Found(3)
    ensures FindAt(Concat(EncodeEntries([[7], [9]], 4)), 0, 0, 2, BlockStride(4)) == Found(4)
    ensures FindAt(Concat(EncodeEntries([[7], [9]], 4)), 0, 0, 3, HeaderStride) == Overrun
    ensures FindAt(Concat(EncodeEntries([[7], [9]], 4)), 0, 0, 3, BlockStride(4)) == NotFound
  {
    var es := EncodeEntries([[7], [9]], 4);
    var buf := Concat(es);
    assert EntryBlocks([7], 4) == [4, 0, 7, 0];
    assert EntryBlocks([9], 4) == [4, 0, 9, 0];
    assert es == [[4, 0, 7, 0], [4, 0, 9, 0]];
    assert es[1..] == [[4, 0, 9, 0]] && es[1..][1..] == [];
    assert buf == [4, 0, 7, 0, 4, 0, 9, 0];
    assert ParseHeader(0, 4) == BlockHeader(false, false, 256);
  }
}
