/** The server side of a stream (storageserver/ServerStream.cpp): a vector
    of segment locations indexed by sequence number (with holes), the list
    of segments open for some session, the last sequence number, the search
    trees of the stored ranges and the stream statistics. The locks, the
    encoder, the stream buffer, waits, read-ahead and the submission of
    segments (_close, _completeSegment) are not part of this model. */
module ServerStreams {
  import opened Wrappers
  import opened Exceptions
  import opened StreamIndex
  import opened Decimal

  /** INVALID_SEGMENT_ID: no stream buffer segment. */
  const InvalidSegmentId: nat := 0xFFFF_FFFF

  /** The query types that have no search tree. */
  const QSequenceNumber: nat := 3
  const QNextValidSequenceNumber: nat := 4

  /** ServerStream::SegmentLocation: a segment's sequence number, its
      storage location once stored, the stream buffer segment holding it
      while open, and the references each session holds. */
  datatype SegmentLocation = SegmentLocation(
    sequenceNumber: nat, location: Option<StorageLocation>, id: nat,
    referenceCount: nat, references: map<nat, nat>)

  /** The location of a newly appended, writable segment: one reference,
      held by the appending session. */
  function NewWritable(sqn: nat, session: nat, buffer: nat): SegmentLocation
  {
    SegmentLocation(sqn, None, buffer, 1, map[session := 1])
  }

  /** The location of a segment already in the store: no references. */
  function Stored(sqn: nat, l: StorageLocation): SegmentLocation
  {
    SegmentLocation(sqn, Some(l), InvalidSegmentId, 0, map[])
  }

  /** A slot's location: numbered by its slot, its reference count the
      sum of the sessions' counts, every listed session holding a
      reference, and its storage location well formed. The sum is what
      the debug-build assert in close evidently means to check; as
      written it assigns the reference count to the summed temporary and
      so only checks that the count is non-zero. The model keeps the
      intended equality as an invariant and proves every operation
      preserves it. */
  ghost predicate SlotOk(loc: SegmentLocation, i: nat)
  {
    loc.sequenceNumber == i && loc.referenceCount == RefSum(loc.references) &&
    (forall s :: s in loc.references ==> loc.references[s] > 0) &&
    (loc.location.Some? ==> LocationOk(loc.location.value))
  }

  /** The vector ends at the last sequence number; it is empty while the
      last sequence number is invalid. */
  predicate Shaped(segments: seq<Option<SegmentLocation>>, last: nat)
  {
    (last == InvalidSqn && |segments| == 0) || (last < InvalidSqn && |segments| == last + 1)
  }

  /** _segmentIsAllocated. */
  predicate Allocated(segments: seq<Option<SegmentLocation>>, sqn: nat)
  {
    sqn < |segments| && segments[sqn].Some?
  }

  /** _addSegmentLocation on the vector: padded with holes up to the
      sequence number, and the location stored there. */
  function Placed(segments: seq<Option<SegmentLocation>>, loc: SegmentLocation): (r: seq<Option<SegmentLocation>>)
    ensures |r| == if loc.sequenceNumber < |segments| then |segments| else loc.sequenceNumber + 1
    ensures r[loc.sequenceNumber] == Some(loc)
    ensures forall i :: 0 <= i < |r| && i != loc.sequenceNumber ==>
              r[i] == if i < |segments| then segments[i] else None
  {
    var sqn := loc.sequenceNumber;
    if sqn < |segments| then segments[sqn := Some(loc)]
    else segments + seq(sqn - |segments|, _ => None) + [Some(loc)]
  }

  /** The last sequence number after adding sqn: the larger of the two,
      or sqn while there was none. */
  function RaisedLast(last: nat, sqn: nat): (r: nat)
    ensures last != InvalidSqn ==> r >= last && r >= sqn && (r == last || r == sqn)
    ensures last == InvalidSqn ==> r == sqn
  {
    if sqn > last || last == InvalidSqn then sqn else last
  }

  /** Adding a location keeps the vector ending at the last sequence
      number. */
  lemma PlacedShaped(segments: seq<Option<SegmentLocation>>, last: nat, loc: SegmentLocation)
    requires Shaped(segments, last) && loc.sequenceNumber < InvalidSqn
    ensures Shaped(Placed(segments, loc), RaisedLast(last, loc.sequenceNumber))
  {
  }

  /** The last occupied slot below k. */
  function PrevFrom(segments: seq<Option<SegmentLocation>>, k: nat): (r: Option<nat>)
    requires k <= |segments|
    ensures r.Some? ==> r.value < k && segments[r.value].Some? &&
                        forall j :: r.value < j < k ==> segments[j].None?
    ensures r.None? ==> forall j :: 0 <= j < k ==> segments[j].None?
  {
    if k == 0 then None else if segments[k - 1].Some? then Some(k - 1) else PrevFrom(segments, k - 1)
  }

  /** The first occupied slot from k on. */
  function NextFrom(segments: seq<Option<SegmentLocation>>, k: nat): (r: Option<nat>)
    ensures r.Some? ==> k <= r.value < |segments| && segments[r.value].Some? &&
                        forall j :: k <= j < r.value ==> segments[j].None?
    ensures r.None? ==> forall j :: k <= j < |segments| ==> segments[j].None?
    decreases |segments| - k
  {
    if k >= |segments| then None else if segments[k].Some? then Some(k) else NextFrom(segments, k + 1)
  }

  /** _getPreviousSegment as written: a sequence number above the last is
      replaced by the last, and the search starts below it. */
  function PreviousAsWritten(segments: seq<Option<SegmentLocation>>, last: nat, sqn: nat): Option<nat>
    requires Shaped(segments, last) && sqn <= InvalidSqn
  {
    if sqn > last then PrevFrom(segments, last)
    else if last == InvalidSqn then None
    else PrevFrom(segments, sqn)
  }

  /** The previous segment: the last occupied slot below the sequence
      number. */
  function Previous(segments: seq<Option<SegmentLocation>>, sqn: nat): Option<nat>
  {
    PrevFrom(segments, if sqn < |segments| then sqn else |segments|)
  }

  /** The code as written misses the last segment: it returns the
      previous segment exactly unless the sequence number lies beyond the
      last one and the last slot is occupied. */
  lemma PreviousAsWrittenDiffers(segments: seq<Option<SegmentLocation>>, last: nat, sqn: nat)
    requires Shaped(segments, last) && sqn <= InvalidSqn
    ensures PreviousAsWritten(segments, last, sqn) == Previous(segments, sqn) <==>
            !(sqn > last && segments[last].Some?)
  {
  }

  /** Segments 0 and 1 are stored and segment 2 is added: the code as
      written checks its ranges against segment 0 instead of segment 1. */
  lemma PreviousAsWrittenExample(a: SegmentLocation, b: SegmentLocation)
    ensures PreviousAsWritten([Some(a), Some(b)], 1, 2) == Some(0)
    ensures Previous([Some(a), Some(b)], 2) == Some(1)
  {
  }

  /** The consequence for _addSegment: with stored segments 0 and 1 whose
      ranges are all [0, 0] and [5, 5], a location for segment 2 with ranges
      [3, 4] is checked against segment 0 as written, and passes, although
      it lies below the single-value ranges of its real predecessor 1,
      against which the check refuses it. */
  lemma AddSegmentAsWrittenAccepts(a: SegmentLocation, b: SegmentLocation, l: StorageLocation)
    requires a.location == Some(StorageLocation([Range(0, 0), Range(0, 0), Range(0, 0)], 0, 0))
    requires b.location == Some(StorageLocation([Range(5, 5), Range(5, 5), Range(5, 5)], 0, 0))
    requires l == StorageLocation([Range(3, 4), Range(3, 4), Range(3, 4)], 0, 0)
    ensures Checked(l, LocationAt([Some(a), Some(b)], PreviousAsWritten([Some(a), Some(b)], 1, 2)),
                    LocationAt([Some(a), Some(b)], NextAfter([Some(a), Some(b)], 2)), TreeCount).Ok?
    ensures Checked(l, LocationAt([Some(a), Some(b)], Previous([Some(a), Some(b)], 2)),
                    LocationAt([Some(a), Some(b)], NextAfter([Some(a), Some(b)], 2)), TreeCount).Err?
  {
    var s := [Some(a), Some(b)];
    PreviousAsWrittenExample(a, b);
    assert NextAfter(s, 2) == None;
    assert LocationAt(s, Some(0)) == a.location && LocationAt(s, Some(1)) == b.location && LocationAt(s, None) == None;
    CheckedAll(l, a.location, None);
    forall j | 0 <= j < TreeCount
      ensures CheckRange(l.ranges[j], Neighbour(a.location, j), None, j).Ok?
    {
      assert l.ranges[j] == Range(3, 4) && Neighbour(a.location, j) == Some(Range(0, 0));
    }
    CheckedAll(l, b.location, None);
    assert CheckRange(l.ranges[0], Neighbour(b.location, 0), None, 0).Err?;
  }

  /** _getNextSegment: the first occupied slot after the sequence number,
      which is incremented as a uint32_t (the invalid sequence number wraps
      to 0, so the search starts at the first slot). */
  function NextAfter(segments: seq<Option<SegmentLocation>>, sqn: nat): Option<nat>
  {
    NextFrom(segments, (sqn + 1) % Two32)
  }

  /** The storage location of a found segment, if it is stored. */
  function LocationAt(segments: seq<Option<SegmentLocation>>, slot: Option<nat>): Option<StorageLocation>
  {
    if slot.Some? && slot.value < |segments| && segments[slot.value].Some? then segments[slot.value].value.location
    else None
  }

  /** Index i of a neighbour's ranges, if there is a stored neighbour. */
  function Neighbour(l: Option<StorageLocation>, i: nat): Option<Range>
  {
    if l.Some? && i < |l.value.ranges| then Some(l.value.ranges[i]) else None
  }

  /** The range checks of _addSegment for indices below i: the first
      failing one throws; otherwise each range is replaced by its checked
      form. */
  function Checked(l: StorageLocation, prev: Option<StorageLocation>, next: Option<StorageLocation>, i: nat): (r: Result<StorageLocation, Exception>)
    requires LocationOk(l) && i <= TreeCount
    ensures r.Err? ==> exists j :: 0 <= j < i && r.error == MonotonicityError(j) &&
                                   CheckRange(l.ranges[j], Neighbour(prev, j), Neighbour(next, j), j).Err?
    ensures r.Ok? ==> LocationOk(r.value) &&
                      r.value.compressedSize == l.compressedSize && r.value.rawEntryCount == l.rawEntryCount &&
                      (forall j :: 0 <= j < i ==> CheckRange(l.ranges[j], Neighbour(prev, j), Neighbour(next, j), j) == Ok(r.value.ranges[j])) &&
                      (forall j :: i <= j < TreeCount ==> r.value.ranges[j] == l.ranges[j])
    decreases i
  {
    if i == 0 then Ok(l)
    else
      match Checked(l, prev, next, i - 1)
      case Err(e) => Err(e)
      case Ok(l1) =>
        match CheckRange(l1.ranges[i - 1], Neighbour(prev, i - 1), Neighbour(next, i - 1), i - 1)
        case Err(e) => Err(e)
        case Ok(rg) => Ok(l1.(ranges := l1.ranges[i - 1 := rg]))
  }

  /** A failed check stays failed for the remaining indices. */
  lemma {:induction false} CheckedErrStays(l: StorageLocation, prev: Option<StorageLocation>, next: Option<StorageLocation>, i: nat, j: nat)
    requires LocationOk(l) && i <= j <= TreeCount && Checked(l, prev, next, i).Err?
    ensures Checked(l, prev, next, j) == Checked(l, prev, next, i)
    decreases j
  {
    if j > i {
      CheckedErrStays(l, prev, next, i, j - 1);
    }
  }

  /** The whole check accepts a location exactly when every index passes,
      and what it accepts has only normal ranges. */
  lemma CheckedAll(l: StorageLocation, prev: Option<StorageLocation>, next: Option<StorageLocation>)
    requires LocationOk(l)
    ensures Checked(l, prev, next, TreeCount).Ok? <==>
            forall j :: 0 <= j < TreeCount ==> CheckRange(l.ranges[j], Neighbour(prev, j), Neighbour(next, j), j).Ok?
    ensures Checked(l, prev, next, TreeCount).Ok? ==>
            forall j :: 0 <= j < TreeCount ==> Normal(Checked(l, prev, next, TreeCount).value.ranges[j])
  {
    var c := Checked(l, prev, next, TreeCount);
    if c.Ok? {
      forall j | 0 <= j < TreeCount ensures Normal(c.value.ranges[j]) {
        CheckedNormal(l.ranges[j], Neighbour(prev, j), Neighbour(next, j), j);
      }
    }
  }

  /** A tree after _addSegment: a valid range is inserted. */
  function IndexedTree(t: seq<TreeEntry>, r: Range, sqn: nat): (u: seq<TreeEntry>)
    requires Sorted(t)
    ensures Sorted(u)
    ensures IsValidRange(r) && !(exists i :: 0 <= i < |t| && t[i].start == r.start) ==>
              TreeEntry(r.start, r.end, sqn) in u
  {
    if IsValidRange(r) then Insert(t, TreeEntry(r.start, r.end, sqn)) else t
  }

  /** A statistics range after _addSegment: widened by a valid range. */
  function WidenedStat(stat: Range, r: Range): (w: Range)
    requires Normal(stat) && Normal(r)
    ensures Normal(w)
    ensures IsValidRange(r) ==> w.start <= r.start && r.end <= w.end
    ensures IsValidRange(stat) ==> w.start <= stat.start && stat.end <= w.end
  {
    if IsValidRange(r) then Widen(stat, r) else stat
  }

  /** What close did with the session's reference: released one of
      several, or found the last one, which _close submits. */
  datatype CloseOutcome = Released | LastReference

  /** The text of the exception close throws when the session holds no
      reference to the segment (the Exception carries both ids). */
  function NoReferenceMessage(e: Exception): string
    requires e.NoReference?
  {
    "Session " + NatToString(e.session) + (" does not hold any " + "references to stream segment <sqn: ") +
    NatToString(e.sqn) + ">."
  }

  /** The message names the session and the segment, in this order, and
      holds no other number. */
  lemma {:induction false} NoReferenceMessageIds(session: nat, sqn: nat)
    ensures Numbers(NoReferenceMessage(NoReference(session, sqn))) == [session, sqn]
  {
    TwoNumbers("Session ", session, " does not hold any " + "references to stream segment <sqn: ", sqn, ">.");
  }

  /** append's sequence number: one past the last, as a uint32_t (so the
      first is 0); reaching the invalid sequence number throws. */
  function AppendSqn(last: nat): (r: Result<nat, Exception>)
    ensures r.Err? <==> (last + 1) % Two32 == InvalidSqn
    ensures r.Err? ==> r.error == InvalidOperation
    ensures r.Ok? ==> r.value == (last + 1) % Two32 && r.value < InvalidSqn
  {
    var sqn := (last + 1) % Two32;
    if sqn == InvalidSqn then Err(InvalidOperation) else Ok(sqn)
  }

  /** The appended segment goes into a new slot at the end of the vector:
      0 on an empty stream, one past the last otherwise; a stream whose last
      sequence number is one below the invalid one cannot grow. */
  lemma AppendSqnFresh(segments: seq<Option<SegmentLocation>>, last: nat)
    requires Shaped(segments, last)
    ensures AppendSqn(last).Ok? <==> last != InvalidSqn - 1
    ensures AppendSqn(last).Ok? ==> AppendSqn(last).value == |segments| && !Allocated(segments, AppendSqn(last).value)
    ensures last == InvalidSqn ==> AppendSqn(last) == Ok(0)
  {
  }

  class ServerStream {
    /** _segments: slot i holds segment i, or null. */
    var segments: seq<Option<SegmentLocation>>
    /** _openList: the sequence numbers of the referenced segments. */
    var openList: seq<nat>
    var lastSequenceNumber: nat
    var lastAppendSequenceNumber: nat
    var lastAppendIndex: nat
    /** _trees: one search tree per tree-based query type. */
    var trees: seq<seq<TreeEntry>>
    var stats: Stats

    ghost predicate Valid()
      reads this
    {
      Shaped(segments, lastSequenceNumber) &&
      (forall i :: 0 <= i < |segments| && segments[i].Some? ==> SlotOk(segments[i].value, i)) &&
      (forall k :: 0 <= k < |openList| ==> openList[k] < |segments|) &&
      |trees| == TreeCount && (forall i :: 0 <= i < TreeCount ==> Sorted(trees[i])) &&
      |stats.ranges| == TreeCount && (forall i :: 0 <= i < TreeCount ==> Normal(stats.ranges[i]))
    }

    /** ServerStream(): no segments, invalid last sequence numbers, empty
        trees and zero statistics. */
    constructor ()
      ensures Valid() && segments == [] && openList == [] && lastSequenceNumber == InvalidSqn
      ensures lastAppendSequenceNumber == InvalidSqn && lastAppendIndex == 0
      ensures trees == [[], [], []] && stats == InitialStats()
    {
      segments := [];
      openList := [];
      lastSequenceNumber := InvalidSqn;
      lastAppendSequenceNumber := InvalidSqn;
      lastAppendIndex := 0;
      trees := [[], [], []];
      stats := InitialStats();
    }

    /** _addSegmentLocation: pads the vector with holes up to the sequence
        number, stores the location there, lists it as open if it is
        referenced, and raises the last sequence number. */
    method AddSegmentLocation(loc: SegmentLocation)
      requires Valid() && loc.sequenceNumber < InvalidSqn && SlotOk(loc, loc.sequenceNumber)
      requires !Allocated(segments, loc.sequenceNumber)
      modifies this
      ensures Valid()
      ensures segments == Placed(old(segments), loc)
      ensures openList == old(openList) + (if loc.referenceCount > 0 then [loc.sequenceNumber] else [])
      ensures lastSequenceNumber == RaisedLast(old(lastSequenceNumber), loc.sequenceNumber)
      ensures lastAppendSequenceNumber == old(lastAppendSequenceNumber) && lastAppendIndex == old(lastAppendIndex)
      ensures trees == old(trees) && stats == old(stats)
    {
      var sqn := loc.sequenceNumber;
      var padded := segments;
      while |padded| <= sqn
        invariant |segments| <= |padded| <= if sqn < |segments| then |segments| else sqn + 1
        invariant padded == segments + seq(|padded| - |segments|, _ => None)
        decreases sqn + 1 - |padded|
      {
        padded := padded + [None];
      }
      segments := padded[sqn := Some(loc)];
      if loc.referenceCount > 0 {
        openList := openList + [sqn];
      }
      if sqn > lastSequenceNumber || lastSequenceNumber == InvalidSqn {
        lastSequenceNumber := sqn;
      }
      PlacedShaped(old(segments), old(lastSequenceNumber), loc);
    }

    /** _getPreviousSegment as written. */
    method GetPreviousSegmentAsWritten(sqn: nat) returns (r: Option<nat>)
      requires Valid() && sqn <= InvalidSqn
      ensures r == PreviousAsWritten(segments, lastSequenceNumber, sqn)
    {
      var n: nat := sqn;
      if n > lastSequenceNumber {
        n := lastSequenceNumber;
      } else if lastSequenceNumber == InvalidSqn {
        return None;
      }
      while true
        invariant n <= |segments|
        invariant PrevFrom(segments, n) == PreviousAsWritten(segments, lastSequenceNumber, sqn)
        decreases n
      {
        if n == 0 {
          return None;
        }
        n := n - 1;
        if segments[n].Some? {
          return Some(n);
        }
      }
    }

    /** _getPreviousSegment, searching from the last segment itself when
        the sequence number lies beyond it: the last occupied slot below
        the sequence number. */
    method GetPreviousSegment(sqn: nat) returns (r: Option<nat>)
      requires Valid() && sqn <= InvalidSqn
      ensures r == Previous(segments, sqn)
      ensures r.Some? ==> r.value < sqn && Allocated(segments, r.value) &&
                          forall j :: r.value < j < sqn ==> !Allocated(segments, j)
      ensures r.None? ==> forall j :: 0 <= j < sqn ==> !Allocated(segments, j)
    {
      var n: nat := sqn;
      if lastSequenceNumber == InvalidSqn {
        return None;
      } else if n > lastSequenceNumber {
        n := lastSequenceNumber + 1;
      }
      while true
        invariant n <= |segments|
        invariant PrevFrom(segments, n) == Previous(segments, sqn)
        decreases n
      {
        if n == 0 {
          return None;
        }
        n := n - 1;
        if segments[n].Some? {
          return Some(n);
        }
      }
    }

    /** _getNextSegment: the first occupied slot after the sequence
        number. */
    method GetNextSegment(sqn: nat) returns (r: Option<nat>)
      requires Valid() && sqn <= InvalidSqn
      ensures r == NextAfter(segments, sqn)
      ensures sqn < InvalidSqn && r.Some? ==> sqn < r.value && Allocated(segments, r.value) &&
                                               forall j :: sqn < j < r.value ==> !Allocated(segments, j)
      ensures sqn < InvalidSqn && r.None? ==> forall j :: sqn < j ==> !Allocated(segments, j)
    {
      var n := (sqn + 1) % Two32;
      while n < |segments|
        invariant NextFrom(segments, n) == NextAfter(segments, sqn)
        decreases |segments| - n
      {
        if segments[n].Some? {
          return Some(n);
        }
        n := (n + 1) % Two32;
      }
      return None;
    }

    /** The range checks of _addSegment, index by index. */
    method CheckRanges(l: StorageLocation, prev: Option<StorageLocation>, next: Option<StorageLocation>)
      returns (r: Result<StorageLocation, Exception>)
      requires LocationOk(l)
      ensures r == Checked(l, prev, next, TreeCount)
    {
      var current := l;
      var i := 0;
      while i < TreeCount
        invariant 0 <= i <= TreeCount
        invariant Checked(l, prev, next, i) == Ok(current) && LocationOk(current)
      {
        var c := CheckRange(current.ranges[i], Neighbour(prev, i), Neighbour(next, i), i);
        if c.Err? {
          CheckedErrStays(l, prev, next, i + 1, TreeCount);
          return Err(c.error);
        }
        current := current.(ranges := current.ranges[i := c.value]);
        i := i + 1;
      }
      r := Ok(current);
    }

    /** Inserts the valid ranges of a stored location into the trees and
        widens the statistics ranges by them. */
    method IndexRanges(l: StorageLocation, sqn: nat)
      requires Valid() && LocationOk(l) && forall j :: 0 <= j < TreeCount ==> Normal(l.ranges[j])
      modifies this
      ensures Valid()
      ensures |trees| == TreeCount && |stats.ranges| == TreeCount
      ensures forall i :: 0 <= i < TreeCount ==>
                trees[i] == IndexedTree(old(trees)[i], l.ranges[i], sqn) &&
                stats.ranges[i] == WidenedStat(old(stats.ranges)[i], l.ranges[i])
      ensures stats == old(stats).(ranges := stats.ranges)
      ensures segments == old(segments) && openList == old(openList)
      ensures lastSequenceNumber == old(lastSequenceNumber)
      ensures lastAppendSequenceNumber == old(lastAppendSequenceNumber) && lastAppendIndex == old(lastAppendIndex)
    {
      var ts, rs := trees, stats.ranges;
      var i := 0;
      while i < TreeCount
        invariant 0 <= i <= TreeCount && |ts| == TreeCount && |rs| == TreeCount
        invariant forall j :: 0 <= j < TreeCount ==> Sorted(ts[j]) && Normal(rs[j])
        invariant forall j :: 0 <= j < i ==>
                    ts[j] == IndexedTree(trees[j], l.ranges[j], sqn) &&
                    rs[j] == WidenedStat(stats.ranges[j], l.ranges[j])
        invariant forall j :: i <= j < TreeCount ==> ts[j] == trees[j] && rs[j] == stats.ranges[j]
      {
        var range := l.ranges[i];
        if range.start != InvalidLarge && range.end != InvalidLarge {
          ts := ts[i := Insert(ts[i], TreeEntry(range.start, range.end, sqn))];
          rs := rs[i := Widen(rs[i], range)];
        }
        i := i + 1;
      }
      trees := ts;
      stats := stats.(ranges := rs);
    }

    /** The remaining statistics of _addSegment: compressed size, entry
        count and raw entry count, summed in uint64_t. */
    method CountLocation(l: StorageLocation)
      requires Valid() && LocationOk(l)
      modifies this
      ensures Valid()
      ensures stats == old(stats).(compressedSize := (old(stats.compressedSize) + l.compressedSize) % Two64,
                                   entryCount := (old(stats.entryCount) + EntryCount(l)) % Two64,
                                   rawEntryCount := (old(stats.rawEntryCount) + l.rawEntryCount) % Two64)
      ensures segments == old(segments) && openList == old(openList) && trees == old(trees)
      ensures lastSequenceNumber == old(lastSequenceNumber)
      ensures lastAppendSequenceNumber == old(lastAppendSequenceNumber) && lastAppendIndex == old(lastAppendIndex)
    {
      stats := stats.(compressedSize := (stats.compressedSize + l.compressedSize) % Two64);
      stats := stats.(entryCount := (stats.entryCount + EntryCount(l)) % Two64);
      stats := stats.(rawEntryCount := (stats.rawEntryCount + l.rawEntryCount) % Two64);
    }

    /** The placement step of _addSegment: a segment not yet allocated (one
        loaded from the store) gets a new location without references and
        may raise the last append index; an allocated one (completed after
        encoding) receives its storage location. */
    method PlaceLocation(sqn: nat, l: StorageLocation)
      requires Valid() && sqn < InvalidSqn && LocationOk(l)
      requires Allocated(segments, sqn) ==> segments[sqn].value.location.None?
      modifies this
      ensures Valid()
      ensures !Allocated(old(segments), sqn) ==>
                segments == Placed(old(segments), Stored(sqn, l)) &&
                lastSequenceNumber == RaisedLast(old(lastSequenceNumber), sqn) &&
                lastAppendIndex == (if l.ranges[0].start > old(lastAppendIndex) then l.ranges[0].start else old(lastAppendIndex))
      ensures Allocated(old(segments), sqn) ==>
                segments == old(segments)[sqn := Some(old(segments)[sqn].value.(location := Some(l)))] &&
                lastSequenceNumber == old(lastSequenceNumber) && lastAppendIndex == old(lastAppendIndex)
      ensures openList == old(openList) && trees == old(trees) && stats == old(stats)
      ensures lastAppendSequenceNumber == old(lastAppendSequenceNumber)
    {
      if !(sqn < |segments| && segments[sqn].Some?) {
        assert RefSum(map[]) == 0;
        AddSegmentLocation(Stored(sqn, l));
        if l.ranges[0].start > lastAppendIndex {
          lastAppendIndex := l.ranges[0].start;
        }
      } else {
        segments := segments[sqn := Some(segments[sqn].value.(location := Some(l)))];
      }
    }

    /** What _addSegment does once the previous segment prev is chosen:
        the location's ranges are checked against the stored neighbours
        before and after it (a failure throws and changes nothing);
        otherwise the location is stored, its ranges indexed and counted in
        the statistics. */
    twostate predicate Added(sqn: nat, l: StorageLocation, prev: Option<nat>, new r: Result<(), Exception>)
      requires LocationOk(l) && |old(trees)| == TreeCount && |old(stats.ranges)| == TreeCount
      requires forall i :: 0 <= i < TreeCount ==> Sorted(old(trees)[i]) && Normal(old(stats.ranges)[i])
      reads this
    {
      var before := LocationAt(old(segments), prev);
      var after := LocationAt(old(segments), NextAfter(old(segments), sqn));
      var c := Checked(l, before, after, TreeCount);
      CheckedAll(l, before, after);
      (r.Err? <==> c.Err?) &&
      (r.Err? ==> r == Err(c.error) && segments == old(segments) && trees == old(trees) &&
                  stats == old(stats) && lastAppendIndex == old(lastAppendIndex)) &&
      (r.Ok? ==> c.Ok? &&
                 (!Allocated(old(segments), sqn) ==> segments == Placed(old(segments), Stored(sqn, c.value))) &&
                 (Allocated(old(segments), sqn) ==>
                    segments == old(segments)[sqn := Some(old(segments)[sqn].value.(location := Some(c.value)))]) &&
                 |trees| == TreeCount && |stats.ranges| == TreeCount &&
                 forall i :: 0 <= i < TreeCount ==>
                   trees[i] == IndexedTree(old(trees)[i], c.value.ranges[i], sqn) &&
                   stats.ranges[i] == WidenedStat(old(stats.ranges)[i], c.value.ranges[i])) &&
      openList == old(openList) && lastAppendSequenceNumber == old(lastAppendSequenceNumber)
    }

    /** _addSegment, with the previous segment found by
        GetPreviousSegment. */
    method AddSegment(sqn: nat, l: StorageLocation) returns (r: Result<(), Exception>)
      requires Valid() && sqn < InvalidSqn && LocationOk(l)
      requires Allocated(segments, sqn) ==> segments[sqn].value.location.None?
      modifies this
      ensures Valid() && Added(sqn, l, Previous(old(segments), sqn), r)
    {
      var p := GetPreviousSegment(sqn);
      r := AddSegmentAfter(sqn, l, p);
    }

    /** _addSegment as written, with the previous segment found by
        _getPreviousSegment as written. */
    method AddSegmentAsWritten(sqn: nat, l: StorageLocation) returns (r: Result<(), Exception>)
      requires Valid() && sqn < InvalidSqn && LocationOk(l)
      requires Allocated(segments, sqn) ==> segments[sqn].value.location.None?
      modifies this
      ensures Valid() && Added(sqn, l, PreviousAsWritten(old(segments), old(lastSequenceNumber), sqn), r)
    {
      var p := GetPreviousSegmentAsWritten(sqn);
      r := AddSegmentAfter(sqn, l, p);
    }

    /** The body of _addSegment after the previous segment p is found. */
    method AddSegmentAfter(sqn: nat, l: StorageLocation, p: Option<nat>) returns (r: Result<(), Exception>)
      requires Valid() && sqn < InvalidSqn && LocationOk(l)
      requires Allocated(segments, sqn) ==> segments[sqn].value.location.None?
      modifies this
      ensures Valid() && Added(sqn, l, p, r)
    {
      var n := GetNextSegment(sqn);
      var c := CheckRanges(l, LocationAt(segments, p), LocationAt(segments, n));
      if c.Err? {
        return Err(c.error);
      }
      CheckedAll(l, LocationAt(segments, p), LocationAt(segments, n));
      PlaceLocation(sqn, c.value);
      IndexRanges(c.value, sqn);
      CountLocation(c.value);
      r := Ok(());
    }

    /** _findSequenceNumber: a tree lookup for the tree-based types, the
        value itself (truncated to 32 bits) for QSequenceNumber, the next
        occupied slot after it for QNextValidSequenceNumber (or the invalid
        sequence number), NotSupported for every other type. */
    method FindSequenceNumber(kind: nat, value: nat) returns (r: Result<nat, Exception>)
      requires Valid()
      ensures kind < TreeCount ==> r == Ok(Find(trees[kind], value))
      ensures kind == QSequenceNumber ==> r == Ok(value % Two32)
      ensures kind == QNextValidSequenceNumber ==>
                r.Ok? && r.value == (var s := NextAfter(segments, value % Two32); if s.Some? then s.value else InvalidSqn)
      ensures kind > QNextValidSequenceNumber ==> r == Err(NotSupported)
    {
      if kind < TreeCount {
        return Ok(Find(trees[kind], value));
      }
      if kind == QSequenceNumber {
        return Ok(value % Two32);
      }
      if kind == QNextValidSequenceNumber {
        var s := GetNextSegment(value % Two32);
        if s.Some? {
          return Ok(segments[s.value].value.sequenceNumber);
        }
        return Ok(InvalidSqn);
      }
      return Err(NotSupported);
    }

    /** close(session, sqn): an unallocated segment is an invalid
        operation, a session without a reference to it an error; the last
        reference is handed to _close; otherwise the session's count and
        the total drop by one, and a session count reaching zero leaves the
        map. */
    method Close(session: nat, sqn: nat) returns (r: Result<CloseOutcome, Exception>)
      requires Valid()
      modifies this
      ensures Valid()
      ensures !Allocated(old(segments), sqn) ==> r == Err(InvalidOperation) && segments == old(segments)
      ensures Allocated(old(segments), sqn) ==>
                var loc := old(segments)[sqn].value;
                (loc.referenceCount == 0 || session !in loc.references ==> r == Err(NoReference(session, sqn)) && segments == old(segments)) &&
                (loc.referenceCount == 1 && session in loc.references ==> r == Ok(LastReference) && segments == old(segments)) &&
                (loc.referenceCount > 1 && session in loc.references ==>
                   r == Ok(Released) &&
                   segments == old(segments)[sqn := Some(loc.(referenceCount := loc.referenceCount - 1,
                                                            references := if loc.references[session] == 1
                                                                          then loc.references - {session}
                                                                          else loc.references[session := loc.references[session] - 1]))])
      ensures openList == old(openList) && trees == old(trees) && stats == old(stats)
      ensures lastSequenceNumber == old(lastSequenceNumber)
      ensures lastAppendSequenceNumber == old(lastAppendSequenceNumber) && lastAppendIndex == old(lastAppendIndex)
    {
      if !(sqn < |segments| && segments[sqn].Some?) {
        return Err(InvalidOperation);
      }
      var loc := segments[sqn].value;
      if loc.referenceCount == 0 || session !in loc.references {
        return Err(NoReference(session, sqn));
      }
      if loc.referenceCount == 1 {
        return Ok(LastReference);
      }
      ReleaseKeepsSum(loc, session);
      var references := if loc.references[session] == 1 then loc.references - {session}
                        else loc.references[session := loc.references[session] - 1];
      segments := segments[sqn := Some(loc.(referenceCount := loc.referenceCount - 1, references := references))];
      r := Ok(Released);
    }

    /** The part of _close that append's state depends on: closing the
        last appended segment adds its entry count to the append index and
        clears the last appended sequence number. */
    method CloseLastAppend(closedEntries: nat)
      requires Valid()
      modifies this
      ensures Valid() && lastAppendSequenceNumber == InvalidSqn
      ensures lastAppendIndex == old(lastAppendIndex) + (if old(lastAppendSequenceNumber) != InvalidSqn then closedEntries else 0)
      ensures segments == old(segments) && openList == old(openList) && lastSequenceNumber == old(lastSequenceNumber)
      ensures trees == old(trees) && stats == old(stats)
    {
      if lastAppendSequenceNumber != InvalidSqn {
        lastAppendIndex := lastAppendIndex + closedEntries;
        lastAppendSequenceNumber := InvalidSqn;
      }
    }

    /** append(session): first closes the session's previously appended
        segment, which adds that segment's entry count (`closedEntries`,
        read from its control element) to the append index and clears the
        last appended sequence number; then numbers the new segment one past
        the last and, when the buffer supplied a segment, registers it as
        written by the session and makes it the last appended segment. The
        result is the last appended sequence number, which is the invalid
        one when the buffer supplied no segment. */
    method Append(session: nat, buffer: nat, closedEntries: nat) returns (r: Result<nat, Exception>)
      requires Valid()
      modifies this
      ensures Valid()
      ensures lastAppendIndex == old(lastAppendIndex) + (if old(lastAppendSequenceNumber) != InvalidSqn then closedEntries else 0)
      ensures AppendSqn(old(lastSequenceNumber)).Err? ==>
                r == Err(InvalidOperation) && segments == old(segments) && lastAppendSequenceNumber == InvalidSqn
      ensures AppendSqn(old(lastSequenceNumber)).Ok? && buffer == InvalidSegmentId ==>
                r == Ok(InvalidSqn) && segments == old(segments) && lastAppendSequenceNumber == InvalidSqn
      ensures AppendSqn(old(lastSequenceNumber)).Ok? && buffer != InvalidSegmentId ==>
                var sqn := AppendSqn(old(lastSequenceNumber)).value;
                r == Ok(sqn) && sqn != InvalidSqn && segments == old(segments) + [Some(NewWritable(sqn, session, buffer))] &&
                openList == old(openList) + [sqn] && lastSequenceNumber == sqn && lastAppendSequenceNumber == sqn
      ensures trees == old(trees) && stats == old(stats)
    {
      CloseLastAppend(closedEntries);
      var sqn := AppendSqn(lastSequenceNumber);
      if sqn.Err? {
        return Err(sqn.error);
      }
      if buffer != InvalidSegmentId {
        AppendSqnFresh(segments, lastSequenceNumber);
        RefSumSingle(session, 1);
        AddSegmentLocation(NewWritable(sqn.value, session, buffer));
        lastAppendSequenceNumber := sqn.value;
      }
      r := Ok(lastAppendSequenceNumber);
    }
  }

  /** The debug-build assert in close as written: the condition is the
      assignment `totalRef = referenceCount`, whose value is the count, so
      the assert passes for every non-zero count. */
  function CloseAssertAsWritten(loc: SegmentLocation): bool
  {
    loc.referenceCount != 0
  }

  /** The check the assert is meant to make: the count is the sum of the
      sessions' counts. */
  ghost predicate CloseAssertIntended(loc: SegmentLocation)
  {
    loc.referenceCount == RefSum(loc.references)
  }

  /** A location counting two references of which its only session holds
      one passes the assert as written and fails the intended check. */
  lemma CloseAssertAsWrittenMisses()
    ensures var loc := SegmentLocation(0, None, InvalidSegmentId, 2, map[0 := 1]);
            CloseAssertAsWritten(loc) && !CloseAssertIntended(loc)
  {
    RefSumSingle(0, 1);
  }

  /** In every valid stream, each allocated segment meets the intended
      check, so close can rely on it. */
  lemma CloseAssertHolds(s: ServerStream, sqn: nat)
    requires s.Valid() && sqn < |s.segments| && s.segments[sqn].Some?
    ensures CloseAssertIntended(s.segments[sqn].value)
  {
  }

  /** Dropping one of a session's references keeps the count equal to the
      sum of the sessions' counts. */
  lemma ReleaseKeepsSum(loc: SegmentLocation, session: nat)
    requires loc.referenceCount == RefSum(loc.references) && session in loc.references
    requires loc.references[session] > 0
    ensures loc.referenceCount - 1 ==
            RefSum(if loc.references[session] == 1 then loc.references - {session}
                   else loc.references[session := loc.references[session] - 1])
  {
    RefSumRemove(loc.references, session);
    RefSumUpdate(loc.references, session, loc.references[session] - 1);
  }

  /** A single session's references sum to its count. */
  lemma RefSumSingle(session: nat, count: nat)
    ensures RefSum(map[session := count]) == count
  {
    RefSumRemove(map[session := count], session);
    assert map[session := count] - {session} == map[];
  }
}
