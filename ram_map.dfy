/** RamMap of the memory replay sample (samples/csharp.memreplay/RamMap.cs):
    per 4 KiB frame of guest RAM the index of the last write and the last
    read access, and optionally an image of the RAM's bytes that captured
    writes are stored into.

    Access sizes are size codes: 0, 1, 2 and 3 stand for 1, 2, 4 and 8
    bytes. The map uses the code, not the byte count, both in its bounds
    check and for the last frame an access touches. */
module RamMapping {
  import opened Wrappers
  import opened Exceptions
  import opened Bytes

  const FrameSize: nat := 4096
  /** 2^64: ulong arithmetic wraps around modulo this. */
  const Ulong: nat := 0x1_0000_0000_0000_0000

  datatype FrameMetadata = FrameMetadata(lastWriteAccess: nat, lastReadAccess: nat)

  /** The bytes an access with the given size code stores, 1 << code; more
      than the code itself. */
  function AccessBytes(sizeCode: nat): (n: nat)
    requires sizeCode <= 3
    ensures sizeCode < n <= 8
  {
    [1, 2, 4, 8][sizeCode]
  }

  /** The bounds check of ApplyMemoryAccess: the ulong sum of the address
      and the size code must lie below the RAM size. */
  predicate InBounds(address: nat, sizeCode: nat, size: nat)
  {
    (address + sizeCode) % Ulong < size
  }

  /** The frame stamp an access leaves: the read or the write stamp of
      frame i becomes stamp. */
  function Mark(fs: seq<FrameMetadata>, i: nat, read: bool, stamp: nat): (r: seq<FrameMetadata>)
    requires i < |fs|
    ensures |r| == |fs| && r[i].lastReadAccess == (if read then stamp else fs[i].lastReadAccess)
    ensures r[i].lastWriteAccess == (if read then fs[i].lastWriteAccess else stamp)
    ensures forall j :: 0 <= j < |fs| && j != i ==> r[j] == fs[j]
  {
    fs[i := if read then fs[i].(lastReadAccess := stamp) else fs[i].(lastWriteAccess := stamp)]
  }

  /** The frame table after an access in bounds, and whether the access
      completed: the frame of the first byte and the frame of address plus
      size code are stamped in this order, and an index past the table
      throws IndexOutOfRangeException once the frames before it are
      stamped. */
  function MarkAccess(fs: seq<FrameMetadata>, address: nat, sizeCode: nat, read: bool, stamp: nat)
    : (r: (seq<FrameMetadata>, bool))
    ensures |r.0| == |fs|
  {
    var first := address / FrameSize;
    var last := (address + sizeCode) % Ulong / FrameSize;
    if first >= |fs| then (fs, false)
    else
      var fs1 := Mark(fs, first, read, stamp);
      if last >= |fs| then (fs1, false) else (Mark(fs1, last, read, stamp), true)
  }

  /** The RAM image with the bytes bs stored from address on; bytes that
      would lie past the image are not stored. */
  function StoreImage(image: seq<byte>, address: nat, bs: seq<byte>): (r: seq<byte>)
    ensures |r| == |image|
    ensures forall j :: 0 <= j < |image| && (j < address || j >= address + |bs|) ==> r[j] == image[j]
    ensures forall k :: 0 <= k < |bs| && address + k < |image| ==> r[address + k] == bs[k]
  {
    seq(|image|, j requires 0 <= j < |image| => if address <= j < address + |bs| then bs[j - address] else image[j])
  }

  /** A captured write that fits the image reads back as its data truncated
      to the access size: 1, 2, 4 or 8 low bytes of data. */
  lemma StoreLoad(image: seq<byte>, address: nat, data: nat, sizeCode: nat)
    requires sizeCode <= 3 && address + AccessBytes(sizeCode) <= |image|
    ensures var n := AccessBytes(sizeCode);
            LittleEndian(StoreImage(image, address, LowBytes(data % Pow256(n), n))[address..address + n])
            == data % Pow256(n)
  {
    var n := AccessBytes(sizeCode);
    var bs := LowBytes(data % Pow256(n), n);
    assert StoreImage(image, address, bs)[address..address + n] == bs;
    LowBytesValue(data % Pow256(n), n);
  }

  /** The bounds check with the size code lets through an 8-byte write
      whose last four bytes lie past the RAM image. */
  lemma BoundsCheckOverrun()
    ensures InBounds(8188, 3, 8192) && 8188 + AccessBytes(3) == 8192 + 4
  {
  }

  /** The check the code evidently intends: every stored byte lies inside
      the image. */
  predicate FitsImage(address: nat, sizeCode: nat, size: nat)
    requires sizeCode <= 3
  {
    address + AccessBytes(sizeCode) <= size
  }

  /** Where the intended check holds, the check as written holds too, and
      the stored bytes all land in the image and read back as the data. */
  lemma FitsImageStore(image: seq<byte>, address: nat, data: nat, sizeCode: nat)
    requires sizeCode <= 3 && |image| <= Ulong && FitsImage(address, sizeCode, |image|)
    ensures InBounds(address, sizeCode, |image|)
    ensures var n := AccessBytes(sizeCode);
            LittleEndian(StoreImage(image, address, LowBytes(data % Pow256(n), n))[address..address + n])
            == data % Pow256(n)
  {
    assert address + sizeCode < Ulong;
    StoreLoad(image, address, data, sizeCode);
  }

  /** The whole effect of ApplyMemoryAccess on the frame table, the RAM
      image and the outcome, where stamp is the already incremented access
      index. An access whose address plus size code reaches past the RAM is
      dropped; a captured write with a size code above 3 throws
      ReplayException before anything is stored; otherwise a captured write
      stores its bytes and then the frames are stamped. */
  function AccessOutcome(fs: seq<FrameMetadata>, image: seq<byte>, capture: bool, size: nat, stamp: nat,
                         address: nat, data: nat, sizeCode: nat, read: bool)
    : (o: (seq<FrameMetadata>, seq<byte>, Result<(), Exception>))
    ensures |o.0| == |fs| && |o.1| == |image|
  {
    if !InBounds(address, sizeCode, size) then (fs, image, Ok(()))
    else if !read && capture && sizeCode > 3 then (fs, image, Err(Failure("Size of memory access exceeds 8 byte.")))
    else
      var image' := if !read && capture
                    then StoreImage(image, address, LowBytes(data % Pow256(AccessBytes(sizeCode)), AccessBytes(sizeCode)))
                    else image;
      var m := MarkAccess(fs, address, sizeCode, read, stamp);
      (m.0, image', if m.1 then Ok(()) else Err(IndexOutOfRange))
  }

  /** An access past the RAM changes neither the frames nor the image. */
  lemma AccessDropped(fs: seq<FrameMetadata>, image: seq<byte>, capture: bool, size: nat, stamp: nat,
                      address: nat, data: nat, sizeCode: nat, read: bool)
    requires !InBounds(address, sizeCode, size)
    ensures AccessOutcome(fs, image, capture, size, stamp, address, data, sizeCode, read) == (fs, image, Ok(()))
  {
  }

  /** Reads, and every access without capture, leave the image alone. */
  lemma AccessKeepsImage(fs: seq<FrameMetadata>, image: seq<byte>, capture: bool, size: nat, stamp: nat,
                         address: nat, data: nat, sizeCode: nat, read: bool)
    requires read || !capture
    ensures AccessOutcome(fs, image, capture, size, stamp, address, data, sizeCode, read).1 == image
  {
  }

  /** A captured write with a size code above 3 fails with ReplayException
      and changes nothing. */
  lemma AccessOversized(fs: seq<FrameMetadata>, image: seq<byte>, size: nat, stamp: nat,
                        address: nat, data: nat, sizeCode: nat)
    requires InBounds(address, sizeCode, size) && sizeCode > 3
    ensures AccessOutcome(fs, image, true, size, stamp, address, data, sizeCode, false)
            == (fs, image, Err(Failure("Size of memory access exceeds 8 byte.")))
  {
  }

  /** A captured write that fits the image reads back as its data truncated
      to 1, 2, 4 or 8 bytes. */
  lemma AccessStores(fs: seq<FrameMetadata>, image: seq<byte>, stamp: nat, address: nat, data: nat, sizeCode: nat)
    requires sizeCode <= 3 && |image| <= Ulong && FitsImage(address, sizeCode, |image|)
    ensures var n := AccessBytes(sizeCode);
            LittleEndian(AccessOutcome(fs, image, true, |image|, stamp, address, data, sizeCode, false).1[address..address + n])
            == data % Pow256(n)
  {
    FitsImageStore(image, address, data, sizeCode);
  }

  /** A write stamps the frames of its first byte and of address plus size
      code with the new index and leaves their read stamps and all other
      frames alone; a read does the same with the read stamps. */
  lemma AccessStamps(fs: seq<FrameMetadata>, image: seq<byte>, capture: bool, size: nat, stamp: nat,
                     address: nat, data: nat, sizeCode: nat, read: bool)
    requires InBounds(address, sizeCode, size) && (read || !capture || sizeCode <= 3)
    requires address + sizeCode < Ulong && (address + sizeCode) / FrameSize < |fs|
    ensures var o := AccessOutcome(fs, image, capture, size, stamp, address, data, sizeCode, read);
            var first := address / FrameSize;
            var last := (address + sizeCode) / FrameSize;
            o.2 == Ok(()) &&
            (read ==> o.0[first].lastReadAccess == stamp && o.0[last].lastReadAccess == stamp) &&
            (!read ==> o.0[first].lastWriteAccess == stamp && o.0[last].lastWriteAccess == stamp) &&
            (forall j :: 0 <= j < |fs| && j != first && j != last ==> o.0[j] == fs[j]) &&
            (read ==> forall j :: 0 <= j < |fs| ==> o.0[j].lastWriteAccess == fs[j].lastWriteAccess) &&
            (!read ==> forall j :: 0 <= j < |fs| ==> o.0[j].lastReadAccess == fs[j].lastReadAccess)
  {
    assert address / FrameSize <= (address + sizeCode) / FrameSize;
  }

  class RamMap {
    const size: nat
    const capture: bool
    var frames: array<FrameMetadata>
    var ram: array<byte>
    var cycle: nat
    var index: nat

    /** The table has one frame per full 4 KiB of RAM, the image (when
        captured) one byte per byte of RAM, and no stamp lies ahead of the
        access index. */
    ghost predicate Valid()
      reads this, frames
    {
      frames.Length == size / FrameSize &&
      ram.Length == (if capture then size else 0) &&
      forall i :: 0 <= i < frames.Length ==>
        frames[i].lastWriteAccess <= index && frames[i].lastReadAccess <= index
    }

    /** A new map: size >> 12 frames with zero stamps, index 0. Without
        capture there is no image. */
    constructor (ramSize: nat, captureData: bool)
      ensures Valid() && size == ramSize && capture == captureData && index == 0
      ensures frames[..] == seq(ramSize / FrameSize, _ => FrameMetadata(0, 0))
      ensures fresh(frames) && fresh(ram)
    {
      size := ramSize;
      capture := captureData;
      index := 0;
      ram := new byte[if captureData then ramSize else 0];
      frames := new FrameMetadata[ramSize / FrameSize](_ => FrameMetadata(0, 0));
    }

    /** NumFrames: (int)(size >> 12). */
    function NumFrames(): (n: nat)
      reads this, frames
      requires Valid()
      ensures n == frames.Length
    {
      size / FrameSize
    }

    /** ApplyMemoryAccess. Every call records the cycle and counts the
        access, also one that is dropped because address plus size code
        reaches past the RAM. A captured write stores the low bytes of data
        into the image (a size code above 3 throws), then the frames of the
        access are stamped with the new index. */
    method ApplyMemoryAccess(cycle: nat, address: nat, data: nat, sizeCode: nat, read: bool)
      returns (r: Result<(), Exception>)
      requires Valid() && address < Ulong && data < Ulong
      modifies this, frames, ram
      ensures Valid() && this.cycle == cycle && index == old(index) + 1
      ensures frames == old(frames) && ram == old(ram)
      ensures (frames[..], ram[..], r)
              == AccessOutcome(old(frames[..]), old(ram[..]), capture, size, index, address, data, sizeCode, read)
    {
      this.cycle := cycle;
      index := index + 1;

      if (address + sizeCode) % Ulong >= size {
        return Ok(());
      }

      if !read && capture {
        if sizeCode > 3 {
          return Err(Failure("Size of memory access exceeds 8 byte."));
        }
        var n := AccessBytes(sizeCode);
        StoreBytes(address, LowBytes(data % Pow256(n), n));
      }

      var first := address / FrameSize;
      if first >= frames.Length {
        return Err(IndexOutOfRange);
      }
      StampFrame(first, read);
      var last := (address + sizeCode) % Ulong / FrameSize;
      if last >= frames.Length {
        return Err(IndexOutOfRange);
      }
      StampFrame(last, read);
      r := Ok(());
    }

    /** The store of a captured write: the bytes that fall into the image. */
    method StoreBytes(address: nat, bs: seq<byte>)
      modifies ram
      ensures ram[..] == StoreImage(old(ram[..]), address, bs)
    {
      ghost var image := ram[..];
      forall k | 0 <= k < |bs| && address + k < ram.Length {
        ram[address + k] := bs[k];
      }
      assert ram[..] == StoreImage(image, address, bs);
    }

    /** Stamps frame i with the current index. */
    method StampFrame(i: nat, read: bool)
      requires Valid() && i < frames.Length
      modifies frames
      ensures Valid() && frames[..] == Mark(old(frames[..]), i, read, index)
    {
      frames[i] := if read then frames[i].(lastReadAccess := index) else frames[i].(lastWriteAccess := index);
    }
  }
}
