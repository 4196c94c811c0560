/** A frame of the simtrace v3 store (storageserver/simtrace/Simtrace3Frame.cpp
    with the layout of Simtrace3Format.h): a frame header that records the
    stream segment it holds, and a list of attributes whose headers follow
    the frame header in the file. The file mapping, the checksum (a
    MurmurHash3 of the header) and the attribute buffers' contents are not
    modelled; a buffer is an uninterpreted handle. */
module Simtrace3Frames {
  import opened Wrappers
  import opened Exceptions

  /** sizeof(FrameHeader): 120 bytes with a 16-byte stream type GUID. */
  const FrameHeaderSize: nat := 120
  /** sizeof(AttributeHeader). */
  const AttributeHeaderSize: nat := 32
  const FrameMarker: nat := 0x454D_5246
  const AttributeMarker: nat := 0x5254_5441
  /** SIMTRACE_V3_FRAME_ATTRIBUTE_TABLE_SIZE. */
  const AttributeTableSize: nat := 2

  /** The all-ones invalid ids of the 32-bit object ids and the 64-bit
      time stamps, cycle counts and entry indices. */
  const InvalidObjectId: nat := 0xFFFF_FFFF
  const InvalidLargeObjectId: nat := 0xFFFF_FFFF_FFFF_FFFF

  const Two48: nat := 0x1_0000_0000_0000
  const Two64: nat := 0x1_0000_0000_0000_0000

  /** The parts of a stream the constructor reads: its id and its type's
      GUID (a number here; 0 is the all-zero GUID). */
  datatype StreamInfo = StreamInfo(id: nat, typeId: nat)

  /** The parts of a segment control element the constructor copies. */
  datatype ControlElement = ControlElement(
    stream: nat, sequenceNumber: nat, entryCount: nat, rawEntryCount: nat,
    startTime: nat, endTime: nat, startCycle: nat, endCycle: nat, startIndex: nat)

  /** AttributeHeaderLink: the attribute's type and its offset relative to
      the frame, a 48-bit bit-field. */
  datatype AttributeLink = AttributeLink(kind: nat, relativeFileOffset: nat)

  datatype FrameHeader = FrameHeader(
    marker: nat, sequenceNumber: nat, streamId: nat, typeId: nat,
    entryCount: nat, rawEntryCount: nat, startTime: nat, endTime: nat,
    startCycle: nat, endCycle: nat, startIndex: nat, totalSize: nat,
    attributes: seq<AttributeLink>, attributeCount: nat)

  datatype AttributeHeader = AttributeHeader(marker: nat, kind: nat, size: nat, uncompressedSize: nat)

  /** AttributeHeaderDescription: the header and the buffer it describes. */
  datatype AttributeDescription = AttributeDescription(header: AttributeHeader, buffer: nat)

  /** The header as the memset leaves it, before any field is set. */
  function ZeroHeader(): (h: FrameHeader)
    ensures h.attributeCount == 0 && h.totalSize == 0 && |h.attributes| == AttributeTableSize
  {
    FrameHeader(0, 0, 0, 0, 0, 0, 0, 0, 0, 0, 0, 0, [AttributeLink(0, 0), AttributeLink(0, 0)], 0)
  }

  /** A header a frame can hold: a two-entry attribute table, a uint8
      attribute count and a uint64 total size. */
  predicate HeaderOk(h: FrameHeader)
  {
    |h.attributes| == AttributeTableSize && h.attributeCount < 256 && h.totalSize < Two64
  }

  /** Simtrace3Frame(stream, control): a control element without a stream
      is an argument error. Otherwise the header carries the FRME marker, the
      stream's id and type (the invalid stream id and a zero type without a
      stream), the control element's segment data or the invalid values
      without one, no attributes and the size of the header alone. */
  function InitialHeader(stream: Option<StreamInfo>, control: Option<ControlElement>): (r: Result<FrameHeader, Exception>)
    ensures r.Err? <==> stream.None? && control.Some?
    ensures r.Err? ==> r.error == Argument
    ensures r.Ok? ==> HeaderOk(r.value) && r.value.marker == FrameMarker &&
                      r.value.totalSize == FrameHeaderSize && r.value.attributeCount == 0
    ensures r.Ok? && stream.None? ==> r.value.streamId == InvalidObjectId && r.value.typeId == 0
    ensures r.Ok? && stream.Some? ==> r.value.streamId == stream.value.id && r.value.typeId == stream.value.typeId
    ensures r.Ok? && control.None? ==>
              r.value.sequenceNumber == InvalidObjectId && r.value.entryCount == 0 && r.value.rawEntryCount == 0 &&
              r.value.startTime == InvalidLargeObjectId && r.value.endTime == InvalidLargeObjectId &&
              r.value.startCycle == InvalidLargeObjectId && r.value.endCycle == InvalidLargeObjectId &&
              r.value.startIndex == InvalidLargeObjectId
    ensures r.Ok? && control.Some? ==>
              var c := control.value;
              r.value.sequenceNumber == c.sequenceNumber && r.value.entryCount == c.entryCount &&
              r.value.rawEntryCount == c.rawEntryCount && r.value.startTime == c.startTime &&
              r.value.endTime == c.endTime && r.value.startCycle == c.startCycle &&
              r.value.endCycle == c.endCycle && r.value.startIndex == c.startIndex
  {
    if stream.None? && control.Some? then Err(Argument)
    else
      var h := ZeroHeader().(marker := FrameMarker);
      var h := if stream.Some? then h.(streamId := stream.value.id, typeId := stream.value.typeId)
               else h.(streamId := InvalidObjectId);
      var h := if control.Some? then
                 var c := control.value;
                 h.(sequenceNumber := c.sequenceNumber, entryCount := c.entryCount,
                    rawEntryCount := c.rawEntryCount, startTime := c.startTime, endTime := c.endTime,
                    startCycle := c.startCycle, endCycle := c.endCycle, startIndex := c.startIndex)
               else
                 h.(sequenceNumber := InvalidObjectId, startTime := InvalidLargeObjectId,
                    endTime := InvalidLargeObjectId, startCycle := InvalidLargeObjectId,
                    endCycle := InvalidLargeObjectId, startIndex := InvalidLargeObjectId);
      Ok(h.(totalSize := FrameHeaderSize))
  }

  /** The header side of addAttribute: the next table entry records the
      type and the current total size (truncated to the 48-bit field), the
      count grows by one and the total size by an attribute header and the
      attribute's size, wrapping at 2^64. A full table throws. */
  function AddToHeader(h: FrameHeader, kind: nat, size: nat): (r: Result<FrameHeader, Exception>)
    requires HeaderOk(h) && size < Two64
    ensures r.Err? <==> h.attributeCount >= AttributeTableSize
    ensures r.Err? ==> r.error == InvalidOperation
    ensures r.Ok? ==> HeaderOk(r.value) && r.value.attributeCount == h.attributeCount + 1
    ensures r.Ok? ==> r.value.attributes[h.attributeCount] == AttributeLink(kind, h.totalSize % Two48)
    ensures r.Ok? ==> forall i :: 0 <= i < AttributeTableSize && i != h.attributeCount ==>
                        r.value.attributes[i] == h.attributes[i]
    ensures r.Ok? ==> r.value.totalSize == (h.totalSize + AttributeHeaderSize + size) % Two64
    ensures r.Ok? ==> r == Ok(h.(attributes := r.value.attributes, attributeCount := r.value.attributeCount,
                                 totalSize := r.value.totalSize))
  {
    var index := h.attributeCount;
    if index >= AttributeTableSize then Err(InvalidOperation)
    else
      Ok(h.(attributes := h.attributes[index := AttributeLink(kind, h.totalSize % Two48)],
            attributeCount := index + 1,
            totalSize := (h.totalSize + AttributeHeaderSize + size) % Two64))
  }

  /** The attributes added one after another through addAttribute, as
      (type, size) pairs. */
  function AddAll(h: FrameHeader, added: seq<(nat, nat)>): (r: Result<FrameHeader, Exception>)
    requires HeaderOk(h) && forall k :: 0 <= k < |added| ==> added[k].1 < Two64
    ensures r.Ok? ==> HeaderOk(r.value)
    decreases |added|
  {
    if |added| == 0 then Ok(h)
    else
      match AddAll(h, added[..|added| - 1])
      case Err(e) => Err(e)
      case Ok(h1) => AddToHeader(h1, added[|added| - 1].0, added[|added| - 1].1)
  }

  /** Bytes taken by the attributes: a header each and their sizes. */
  function AttributesBytes(added: seq<(nat, nat)>): nat
  {
    if |added| == 0 then 0 else AttributesBytes(added[..|added| - 1]) + AttributeHeaderSize + added[|added| - 1].1
  }

  /** The file layout a frame describes: starting from a header without
      attributes, at most two attributes are accepted, the k-th one's table
      entry records where its attribute header starts (after the frame
      header and the attributes before it), and the total size covers the
      frame header and all attributes; a third one throws. Sizes are taken
      small enough that no 48-bit or 64-bit field wraps. */
  lemma {:induction false} AddAllLayout(h: FrameHeader, added: seq<(nat, nat)>)
    requires HeaderOk(h) && h.attributeCount == 0
    requires forall k :: 0 <= k < |added| ==> added[k].1 < Two64
    requires h.totalSize + AttributesBytes(added) < Two48
    ensures AddAll(h, added).Ok? <==> |added| <= AttributeTableSize
    ensures AddAll(h, added).Ok? ==>
              AddAll(h, added).value.attributeCount == |added| &&
              AddAll(h, added).value.totalSize == h.totalSize + AttributesBytes(added) &&
              forall k :: 0 <= k < |added| ==>
                AddAll(h, added).value.attributes[k] ==
                AttributeLink(added[k].0, h.totalSize + AttributesBytes(added[..k]))
    decreases |added|
  {
    if |added| > 0 {
      var prefix := added[..|added| - 1];
      assert forall k :: 0 <= k < |prefix| ==> prefix[k] == added[k];
      AttributesBytesPrefix(added);
      AddAllLayout(h, prefix);
      if |added| > AttributeTableSize + 1 {
        AddAllErr(h, added);
      }
      if AddAll(h, prefix).Ok? {
        var h1 := AddAll(h, prefix).value;
        forall k | 0 <= k < |prefix|
          ensures added[..k] == prefix[..k]
        {
        }
        assert added[..|added| - 1] == prefix;
      }
    }
  }

  /** The attributes of a prefix take no more bytes than all of them. */
  lemma {:induction false} AttributesBytesPrefix(added: seq<(nat, nat)>)
    requires |added| > 0
    ensures AttributesBytes(added[..|added| - 1]) <= AttributesBytes(added)
  {
  }

  /** Once an addition fails, every longer list of additions fails. */
  lemma {:induction false} AddAllErr(h: FrameHeader, added: seq<(nat, nat)>)
    requires HeaderOk(h) && h.attributeCount == 0
    requires forall k :: 0 <= k < |added| ==> added[k].1 < Two64
    requires |added| > AttributeTableSize + 1
    ensures AddAll(h, added).Err?
    decreases |added|
  {
    var prefix := added[..|added| - 1];
    assert forall k :: 0 <= k < |prefix| ==> prefix[k] == added[k];
    if |prefix| > AttributeTableSize + 1 {
      AddAllErr(h, prefix);
    } else {
      AddAllThird(h, prefix);
    }
  }

  /** Three additions to a header without attributes: the third throws. */
  lemma AddAllThird(h: FrameHeader, added: seq<(nat, nat)>)
    requires HeaderOk(h) && h.attributeCount == 0
    requires forall k :: 0 <= k < |added| ==> added[k].1 < Two64
    requires |added| == AttributeTableSize + 1
    ensures AddAll(h, added).Err?
  {
    var p2 := added[..2];
    var p1 := added[..1];
    var p0 := added[..0];
    assert added[..|added| - 1] == p2;
    assert p2[..|p2| - 1] == p1;
    assert p1[..|p1| - 1] == p0;
  }

  class Simtrace3Frame {
    /** _attributes, in the order they were added. */
    var attributes: seq<AttributeDescription>
    var header: FrameHeader

    ghost predicate Valid()
      reads this
    {
      HeaderOk(header)
    }

    /** Simtrace3Frame(const FrameHeader&): a frame around a header read
        back from the file, without attributes. */
    constructor FromHeader(h: FrameHeader)
      requires HeaderOk(h)
      ensures Valid() && header == h && attributes == []
    {
      header := h;
      attributes := [];
    }

    /** addAttribute(type, uncompressedSize, size, buffer): appends the
        attribute and records it in the header; throws when the header's
        table is full, with nothing changed. */
    method AddAttribute(kind: nat, uncompressedSize: nat, size: nat, buffer: nat) returns (r: Result<(), Exception>)
      requires Valid() && size < Two64
      modifies this
      ensures Valid()
      ensures AddToHeader(old(header), kind, size).Err? ==>
                r == Err(InvalidOperation) && header == old(header) && attributes == old(attributes)
      ensures AddToHeader(old(header), kind, size).Ok? ==>
                r == Ok(()) && header == AddToHeader(old(header), kind, size).value &&
                attributes == old(attributes) +
                  [AttributeDescription(AttributeHeader(AttributeMarker, kind, size, uncompressedSize), buffer)]
    {
      var index := header.attributeCount;
      if index >= AttributeTableSize {
        return Err(InvalidOperation);
      }
      var description := AttributeDescription(AttributeHeader(AttributeMarker, kind, size, uncompressedSize), buffer);
      attributes := attributes + [description];
      header := header.(attributes := header.attributes[index := AttributeLink(kind, header.totalSize % Two48)]);
      header := header.(attributeCount := header.attributeCount + 1);
      header := header.(totalSize := (header.totalSize + AttributeHeaderSize + size) % Two64);
      r := Ok(());
    }

    /** addAttribute(type, uncompressedSize, buffer): an uncompressed
        attribute, whose size is its uncompressed size. */
    method AddUncompressedAttribute(kind: nat, uncompressedSize: nat, buffer: nat) returns (r: Result<(), Exception>)
      requires Valid() && uncompressedSize < Two64
      modifies this
      ensures Valid()
      ensures AddToHeader(old(header), kind, uncompressedSize).Err? ==>
                r == Err(InvalidOperation) && header == old(header) && attributes == old(attributes)
      ensures AddToHeader(old(header), kind, uncompressedSize).Ok? ==>
                r == Ok(()) && header == AddToHeader(old(header), kind, uncompressedSize).value &&
                attributes == old(attributes) +
                  [AttributeDescription(AttributeHeader(AttributeMarker, kind, uncompressedSize, uncompressedSize), buffer)]
    {
      r := AddAttribute(kind, uncompressedSize, uncompressedSize, buffer);
    }

    /** addAttribute(desc): appends a description read back from the file;
        the header is left as it is. */
    method AddDescription(desc: AttributeDescription)
      requires Valid()
      modifies this
      ensures Valid() && header == old(header) && attributes == old(attributes) + [desc]
    {
      attributes := attributes + [desc];
    }

    /** findAttribute: the position of the first attribute of the type, or
        null when there is none. */
    method FindAttribute(kind: nat) returns (r: Option<nat>)
      requires Valid()
      ensures r.Some? ==> r.value < |attributes| && attributes[r.value].header.kind == kind &&
                          forall j :: 0 <= j < r.value ==> attributes[j].header.kind != kind
      ensures r.None? <==> forall j :: 0 <= j < |attributes| ==> attributes[j].header.kind != kind
    {
      var i := 0;
      while i < |attributes|
        invariant 0 <= i <= |attributes|
        invariant forall j :: 0 <= j < i ==> attributes[j].header.kind != kind
      {
        if attributes[i].header.kind == kind {
          return Some(i);
        }
        i := i + 1;
      }
      return None;
    }
  }

  /** Simtrace3Frame(stream, control): the frame for a stream segment, or
      the argument error for a control element without a stream. */
  method NewFrame(stream: Option<StreamInfo>, control: Option<ControlElement>) returns (r: Result<Simtrace3Frame, Exception>)
    ensures InitialHeader(stream, control).Err? ==> r == Err(Argument)
    ensures InitialHeader(stream, control).Ok? ==>
              r.Ok? && fresh(r.value) && r.value.Valid() &&
              r.value.header == InitialHeader(stream, control).value && r.value.attributes == []
  {
    var h := InitialHeader(stream, control);
    if h.Err? {
      return Err(h.error);
    }
    var frame := new Simtrace3Frame.FromHeader(h.value);
    r := Ok(frame);
  }
}
