/** The stream buffer shared by client and server
    (libsimustor/StreamBuffer.cpp): a memory area cut into lines, one per
    segment, each holding the segment data, the segment's control element
    and padding up to the next page boundary. The memory mapping and the
    shared-memory handle are not modelled; the page size is a parameter. */
module StreamBuffers {
  import opened Wrappers
  import opened Exceptions

  /** SIMUTRACE_MEMMGMT_SEGMENT_SIZE MiB: the only supported segment size. */
  const SegmentSize: nat := 64 * 0x10_0000
  /** SIMUTRACE_MEMMGMT_MAX_NUM_SEGMENTS_PER_BUFFER. */
  const MaxSegmentsPerBuffer: nat := 1024
  /** sizeof(SegmentControlElement): cookie, link, two entry counts, start
      index, two cycle counts and two time stamps. */
  const ControlElementSize: nat := 64
  /** INVALID_BUFFER_ID, the 32-bit invalid object id. */
  const InvalidBufferId: nat := 0xFFFF_FFFF

  /** The debug fill characters _testMemory recognises: clean memory issued
      to a writer, dead (free) memory, and the fence behind each control
      element. */
  const ClearFill: bv8 := 0xCD
  const DeadFill: bv8 := 0xDD
  const FenceFill: bv8 := 0xFD

  /** A page size as the system reports it: a power of two no larger than
      a segment, hence one that divides the segment size. */
  predicate PageSizeOk(pageSize: nat)
  {
    0 < pageSize && SegmentSize % pageSize == 0
  }

  /** The number of pages a control element takes. */
  function ControlPages(pageSize: nat): nat
    requires PageSizeOk(pageSize)
  {
    (ControlElementSize + pageSize - 1) / pageSize
  }

  /** The control element size rounded up to whole pages (the mask
      ~(pageSize - 1) of a power-of-two page size rounds down). */
  function ControlArea(pageSize: nat): (n: nat)
    requires PageSizeOk(pageSize)
    ensures n == ControlPages(pageSize) * pageSize
    ensures ControlElementSize <= n < ControlElementSize + pageSize
  {
    DivBounds(ControlElementSize + pageSize - 1, pageSize);
    ControlPages(pageSize) * pageSize
  }

  /** x / p pages of size p hold at most x, and one more page more than x. */
  lemma DivBounds(x: nat, p: nat)
    requires 0 < p
    ensures x / p * p <= x < x / p * p + p
  {
    var q := x / p;
    var r := x % p;
    assert x == q * p + r;
  }

  /** A multiple of p leaves no remainder. */
  lemma MultipleMod(m: nat, p: nat)
    requires 0 < p
    ensures m * p % p == 0
  {
    var q := m * p / p;
    var r := m * p % p;
    assert m * p == q * p + r;
    assert (m - q) * p == r;
    MulMonotone(1, m - q, p);
    MulMonotone(m - q, -1, p);
  }

  /** Multiplying by a positive factor keeps the order, one factor apart. */
  lemma MulMonotone(a: int, b: int, p: nat)
    requires 0 < p
    ensures a <= b ==> a * p <= b * p
    ensures (b - 1) * p == b * p - p
  {
  }

  /** _computeLineSize: the segment data followed by the control element
      padded to whole pages, so that every segment in the buffer starts
      page-aligned: the padding is a whole number of pages, holds a control
      element, and is less than a page larger than one. */
  function LineSize(segmentSize: nat, pageSize: nat): (n: nat)
    requires PageSizeOk(pageSize)
    ensures n >= segmentSize + ControlElementSize
    ensures (n - segmentSize) % pageSize == 0
    ensures n - segmentSize < ControlElementSize + pageSize
  {
    MultipleMod(ControlPages(pageSize), pageSize);
    segmentSize + ControlArea(pageSize)
  }

  /** The padding is the least multiple of the page size that holds a
      control element. */
  lemma ControlAreaLeast(pageSize: nat, m: nat)
    requires PageSizeOk(pageSize)
    requires m % pageSize == 0 && m >= ControlElementSize
    ensures ControlArea(pageSize) <= m
  {
    var k := ControlPages(pageSize);
    var j := m / pageSize;
    assert m == j * pageSize + m % pageSize;
    MulMonotone(j, k - 1, pageSize);
    MulMonotone(k, j, pageSize);
  }

  /** A buffer's geometry: its id, segment size, line size and number of
      segments (_id, _segmentSize, _lineSize, _numSegments). */
  datatype Geometry = Geometry(id: nat, segmentSize: nat, lineSize: nat, numSegments: nat)

  /** The constructor's checks: the invalid id is an argument error, a
      segment size other than 64 MiB or a segment count of 0 or above the
      maximum is not supported. */
  function NewGeometry(id: nat, segmentSize: nat, numSegments: nat, pageSize: nat): (r: Result<Geometry, Exception>)
    requires PageSizeOk(pageSize)
    ensures r.Ok? <==> id != InvalidBufferId && segmentSize == SegmentSize &&
                       0 < numSegments <= MaxSegmentsPerBuffer
    ensures id == InvalidBufferId ==> r == Err(Argument)
    ensures id != InvalidBufferId && r.Err? ==> r == Err(NotSupported)
    ensures r.Ok? ==> GeometryOk(r.value, pageSize) && r.value.id == id && r.value.numSegments == numSegments
  {
    if id == InvalidBufferId then Err(Argument)
    else if segmentSize != SegmentSize || numSegments == 0 || numSegments > MaxSegmentsPerBuffer then Err(NotSupported)
    else Ok(Geometry(id, segmentSize, LineSize(segmentSize, pageSize), numSegments))
  }

  predicate GeometryOk(g: Geometry, pageSize: nat)
  {
    PageSizeOk(pageSize) && g.segmentSize == SegmentSize && g.lineSize == LineSize(g.segmentSize, pageSize) &&
    0 < g.numSegments <= MaxSegmentsPerBuffer
  }

  /** getBufferSize: one line per segment. */
  function BufferSize(g: Geometry): nat
  {
    g.numSegments * g.lineSize
  }

  /** getSegment: the offset of a segment's data, or an out-of-bounds error
      for a segment id past the last. */
  function SegmentOffset(g: Geometry, segment: nat): (r: Result<nat, Exception>)
    ensures r.Ok? <==> segment < g.numSegments
    ensures r.Err? ==> r.error == ArgumentOutOfBounds
  {
    if segment >= g.numSegments then Err(ArgumentOutOfBounds) else Ok(segment * g.lineSize)
  }

  /** getControlElement: the offset of a segment's control element, right
      after its data, or an out-of-bounds error. */
  function ControlOffset(g: Geometry, segment: nat): (r: Result<nat, Exception>)
    ensures r.Ok? <==> segment < g.numSegments
    ensures r.Err? ==> r.error == ArgumentOutOfBounds
  {
    if segment >= g.numSegments then Err(ArgumentOutOfBounds) else Ok(segment * g.lineSize + g.segmentSize)
  }

  /** _getFenceSize: the padding behind the control element. */
  function FenceSize(g: Geometry): int
  {
    g.lineSize - g.segmentSize - ControlElementSize
  }

  /** The layout the assertions in getSegment and getControlElement rely
      on: each segment's line lies inside the buffer, the control element
      follows the data and the fence follows the control element to the end
      of the line, and the next segment starts on a page boundary right
      after it. */
  lemma SegmentLayout(g: Geometry, pageSize: nat, segment: nat)
    requires GeometryOk(g, pageSize) && segment < g.numSegments
    ensures SegmentOffset(g, segment).Ok? && ControlOffset(g, segment).Ok?
    ensures ControlOffset(g, segment).value == SegmentOffset(g, segment).value + g.segmentSize
    ensures SegmentOffset(g, segment).value + g.lineSize <= BufferSize(g)
    ensures ControlOffset(g, segment).value + ControlElementSize + FenceSize(g) ==
            SegmentOffset(g, segment).value + g.lineSize
    ensures FenceSize(g) >= 0
    ensures SegmentOffset(g, segment).value % pageSize == 0
    ensures segment + 1 < g.numSegments ==>
              SegmentOffset(g, segment + 1).value == SegmentOffset(g, segment).value + g.lineSize
  {
    LineInside(g.lineSize, segment, g.numSegments);
    PageAligned(g, pageSize, segment);
  }

  /** Line `segment` of `count` lines ends where the next one starts, inside
      the buffer. */
  lemma LineInside(lineSize: nat, segment: nat, count: nat)
    requires segment < count
    ensures segment * lineSize + lineSize == (segment + 1) * lineSize <= count * lineSize
  {
  }

  /** Every line starts on a page boundary: the segment size and the
      control area are whole pages. */
  lemma PageAligned(g: Geometry, pageSize: nat, segment: nat)
    requires GeometryOk(g, pageSize)
    ensures segment * g.lineSize % pageSize == 0
  {
    var a := SegmentSize / pageSize;
    var b := ControlPages(pageSize);
    assert SegmentSize == a * pageSize + SegmentSize % pageSize;
    assert g.lineSize == a * pageSize + b * pageSize;
    assert g.lineSize == (a + b) * pageSize;
    assert segment * g.lineSize == (segment * (a + b)) * pageSize;
    MultipleMod(segment * (a + b), pageSize);
  }

  /** _testMemory on a byte area: the fill character when every byte is
      that one of the three debug fills, otherwise (and for an empty area)
      0. */
  function Fill(area: seq<bv8>): (r: bv8)
    ensures r != 0 ==> r in {ClearFill, DeadFill, FenceFill} && |area| > 0 &&
                       forall k :: 0 <= k < |area| ==> area[k] == r
    ensures (|area| > 0 && area[0] in {ClearFill, DeadFill, FenceFill} &&
             forall k :: 0 <= k < |area| ==> area[k] == area[0]) ==> r == area[0]
  {
    if |area| == 0 then 0
    else if exists k :: 0 <= k < |area| && area[k] != area[0] then 0
    else if area[0] != FenceFill && area[0] != DeadFill && area[0] != ClearFill then 0
    else area[0]
  }

  /** _testMemory: compares every byte of buffer[start..start+size] with
      the first one. */
  method TestMemory(buffer: array<bv8>, start: nat, size: nat) returns (r: bv8)
    requires start + size <= buffer.Length
    ensures r == Fill(buffer[start..start + size])
  {
    if size == 0 {
      return 0;
    }
    ghost var area := buffer[start..start + size];
    var chr := buffer[start];
    var pos := 0;
    while pos < size
      invariant 0 <= pos <= size
      invariant forall k :: 0 <= k < pos ==> area[k] == chr
    {
      if buffer[start + pos] != chr {
        assert area[pos] != area[0];
        return 0;
      }
      pos := pos + 1;
    }
    if chr != FenceFill && chr != DeadFill && chr != ClearFill {
      return 0;
    }
    return chr;
  }

  /** A stream buffer with its geometry; the memory itself is the array. */
  class StreamBuffer {
    const geometry: Geometry
    const master: bool
    const memory: array<bv8>

    ghost predicate Valid()
    {
      memory.Length == BufferSize(geometry)
    }

    constructor (g: Geometry, isMaster: bool)
      ensures Valid() && geometry == g && master == isMaster && fresh(memory)
    {
      geometry := g;
      master := isMaster;
      memory := new bv8[BufferSize(g)];
    }

    /** getBufferSize. */
    function GetBufferSize(): (n: nat)
      requires Valid()
      ensures n == memory.Length
    {
      geometry.numSegments * geometry.lineSize
    }

    /** getSegment: the data of the segment starts at the offset, and a
        whole line fits into the memory from there. */
    function GetSegment(segment: nat, pageSize: nat): (r: Result<nat, Exception>)
      requires Valid() && GeometryOk(geometry, pageSize)
      ensures r == SegmentOffset(geometry, segment)
      ensures r.Ok? ==> r.value + geometry.lineSize <= memory.Length
    {
      if segment >= geometry.numSegments then Err(ArgumentOutOfBounds)
      else
        SegmentLayout(geometry, pageSize, segment);
        Ok(segment * geometry.lineSize)
    }

    /** getControlElement: a whole control element fits into the memory
        behind the segment's data. */
    function GetControlElement(segment: nat, pageSize: nat): (r: Result<nat, Exception>)
      requires Valid() && GeometryOk(geometry, pageSize)
      ensures r == ControlOffset(geometry, segment)
      ensures r.Ok? ==> r.value + ControlElementSize <= memory.Length
    {
      if segment >= geometry.numSegments then Err(ArgumentOutOfBounds)
      else
        SegmentLayout(geometry, pageSize, segment);
        Ok(segment * geometry.lineSize + geometry.segmentSize)
    }
  }

  /** StreamBuffer(id, segmentSize, numSegments, ...): the checks, then a
      buffer of one line per segment. */
  method NewStreamBuffer(id: nat, segmentSize: nat, numSegments: nat, pageSize: nat, isMaster: bool)
    returns (r: Result<StreamBuffer, Exception>)
    requires PageSizeOk(pageSize)
    ensures NewGeometry(id, segmentSize, numSegments, pageSize).Err? ==>
              r == Err(NewGeometry(id, segmentSize, numSegments, pageSize).error)
    ensures NewGeometry(id, segmentSize, numSegments, pageSize).Ok? ==>
              r.Ok? && fresh(r.value) && r.value.Valid() && r.value.master == isMaster &&
              r.value.geometry == NewGeometry(id, segmentSize, numSegments, pageSize).value
  {
    var g := NewGeometry(id, segmentSize, numSegments, pageSize);
    if g.Err? {
      return Err(g.error);
    }
    var buffer := new StreamBuffer(g.value, isMaster);
    r := Ok(buffer);
  }
}
