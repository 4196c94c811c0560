/** The segment tables of the storage server's stream buffer
    (storageserver/ServerStreamBuffer.cpp): a free list of unused segments,
    a standby list of cached read-only segments kept in least-recently-used
    order together with an index from a segment's store, stream and
    sequence number to the segment, and the request, free, purge and submit
    operations that move segments between them. The segment data, the
    control cookie's hash, the encoder, the locks and the atomic list heads
    are not modelled. */
module ServerStreamBuffers {
  import opened Wrappers
  import opened Exceptions
  import F = Simtrace3Frames
  import SI = StreamIndex
  import VD = VariableData
  import SB = StreamBuffers
  import opened Decimal

  type ControlElement = F.ControlElement

  /** SegmentFlags. */
  const SfFree: bv8 := 0
  const SfInUse: bv8 := 1
  const SfReadOnly: bv8 := 2
  const SfScratch: bv8 := 4
  const SfCacheable: bv8 := 8
  const SfLowPriority: bv8 := 16
  const SfPrefetch: bv8 := 32

  /** StreamAccessFlags. */
  const SafSequentialScan: bv8 := 1
  const SafRandomAccess: bv8 := 2

  /** INVALID_STREAM_ID, INVALID_STREAM_SEGMENT_ID and the invalid cycle
      count, time stamp and entry index. */
  const InvalidStreamId: nat := F.InvalidObjectId
  const InvalidSqn: nat := SI.InvalidSqn
  const InvalidLarge: nat := SI.InvalidLarge

  /** A temporally ordered entry keeps its cycle count in the low 48 bits. */
  const Two48: nat := F.Two48

  /** The id of the storage server's own buffer, one below the invalid
      buffer id; exception texts name it 'server'. */
  const ServerBufferId: nat := SB.InvalidBufferId - 1

  /** _getBufferIdString. */
  function BufferName(id: nat): (s: string)
    ensures id != ServerBufferId ==> s == NatToString(id)
  {
    if id == ServerBufferId then "'server'" else NatToString(id)
  }

  /** The text of the exception submitSegment throws for a bad control
      cookie (the Exception carries the segment; the buffer's id is an
      argument). */
  function CookieMessage(e: Exception, bufferId: nat): string
    requires e.CookieInvalid?
  {
    "Failed submitting segment " + NatToString(e.segment) + " to buffer " + BufferName(bufferId) +
    (". " + "The control cookie is invalid.")
  }

  /** The message names the segment and then the buffer's id, and holds
      no other number; the storage server's own buffer is named by text. */
  lemma {:induction false} CookieMessageIds(segment: nat, bufferId: nat)
    ensures Numbers(CookieMessage(CookieInvalid(segment), bufferId)) ==
            if bufferId == ServerBufferId then [segment] else [segment, bufferId]
  {
    if bufferId == ServerBufferId {
      OneNumber("Failed submitting segment ", segment, " to buffer ", "'server'",
                ". " + "The control cookie is invalid.");
    } else {
      TwoNumbers("Failed submitting segment ", segment, " to buffer ", bufferId,
                 ". " + "The control cookie is invalid.");
    }
  }

  /** The text of the exception submitSegment throws when the entry counts
      do not fit (the Exception carries the stream, the sequence number and
      the segment). */
  function EntryCountMessage(e: Exception): string
    requires e.EntryCountInvalid?
  {
    ("Invalid number of entries in " + "control element for stream ") + NatToString(e.stream) + " <sqn: " +
    NatToString(e.sqn) + ", bid: " + NatToString(e.segment) + ">."
  }

  /** The message names the stream, the sequence number and the segment,
      in this order, and holds no other number. */
  lemma {:induction false} EntryCountMessageIds(stream: nat, sqn: nat, segment: nat)
    ensures Numbers(EntryCountMessage(EntryCountInvalid(stream, sqn, segment))) == [stream, sqn, segment]
  {
    ThreeNumbers("Invalid number of entries in " + "control element for stream ", stream, " <sqn: ", sqn,
                 ", bid: ", segment, ">.");
  }

  /** The text of the exception submitSegment throws for a bad cycle range
      (the Exception carries the stream, the segment and the sequence
      number). */
  function CycleMessage(e: Exception): string
    requires e.CycleInvalid?
  {
    ("Invalid cycle information in " + "temporally ordered stream ") + NatToString(e.stream) + " for segment " +
    NatToString(e.segment) + " <sqn: " + NatToString(e.sqn) + ">."
  }

  /** The message names the stream, the segment and the sequence number,
      in this order, and holds no other number. */
  lemma {:induction false} CycleMessageIds(stream: nat, segment: nat, sqn: nat)
    ensures Numbers(CycleMessage(CycleInvalid(stream, segment, sqn))) == [stream, segment, sqn]
  {
    ThreeNumbers("Invalid cycle information in " + "temporally ordered stream ", stream, " for segment ", segment,
                 " <sqn: ", sqn, ">.");
  }

  predicate Has(flags: bv8, f: bv8)
  {
    flags & f != 0
  }

  /** The stream a segment belongs to: its store, its id and the two parts
      of its type descriptor that submitting looks at. */
  datatype Owner = Owner(store: nat, stream: nat, entrySize: bv32, temporalOrder: bool)

  /** StoreStreamSegmentLink: the key of the standby index. */
  datatype Link = Link(store: nat, stream: nat, sequenceNumber: nat)

  /** A segment header: flags, submission state, owner, sequence number and
      the private copy of the control element. Whether the segment is on a
      list is given by the lists themselves. */
  datatype Segment = Segment(flags: bv8, isSubmitted: bool, owner: Option<Owner>,
                             sequenceNumber: nat, control: ControlElement)

  const ZeroControl: ControlElement := F.ControlElement(0, 0, 0, 0, 0, 0, 0, 0, 0)

  /** A segment as _initializeSegments leaves it. */
  const InitialSegment: Segment := Segment(SfFree, false, None, InvalidSqn, ZeroControl)

  /** The buffer's tables: the segment headers, the control elements in the
      shared buffer (writable by the client), the free list (head first),
      the standby list (head first, so the least recently used segment,
      head->prev, is last) and the standby index. */
  datatype Tables = Tables(segments: seq<Segment>, shared: seq<ControlElement>,
                           free: seq<nat>, standby: seq<nat>, index: map<Link, nat>)

  /** The index key of a segment: its stream's store and the link in its
      control element. */
  function LinkOf(s: Segment): Link
    requires s.owner.Some?
  {
    Link(s.owner.value.store, s.control.stream, s.control.sequenceNumber)
  }

  predicate Distinct(s: seq<nat>)
  {
    forall a, b :: 0 <= a < b < |s| ==> s[a] != s[b]
  }

  predicate InBounds(s: seq<nat>, n: nat)
  {
    forall k :: 0 <= k < |s| ==> s[k] < n
  }

  /** What the flags say about segment i: a segment on the free list is
      free and has no owner; any other segment is in use; a cacheable
      segment has an owner; a standby segment is read-only and
      cacheable. */
  ghost predicate SlotOk(t: Tables, i: nat)
    requires i < |t.segments|
  {
    var s := t.segments[i];
    (i in t.free ==> s.flags == SfFree && s.owner.None? && s.sequenceNumber == InvalidSqn) &&
    (i !in t.free ==> Has(s.flags, SfInUse)) &&
    (Has(s.flags, SfCacheable) ==> s.owner.Some?) &&
    (i in t.standby ==> Has(s.flags, SfReadOnly) && Has(s.flags, SfCacheable))
  }

  /** The standby index holds exactly the standby segments, each under its
      own link. */
  ghost predicate IndexOk(t: Tables)
  {
    (forall l :: l in t.index ==>
       t.index[l] in t.standby && t.index[l] < |t.segments| &&
       t.segments[t.index[l]].owner.Some? && LinkOf(t.segments[t.index[l]]) == l) &&
    (forall i :: i in t.standby ==>
       i < |t.segments| && t.segments[i].owner.Some? &&
       LinkOf(t.segments[i]) in t.index && t.index[LinkOf(t.segments[i])] == i)
  }

  ghost predicate TablesOk(t: Tables)
  {
    |t.shared| == |t.segments| &&
    Distinct(t.free) && Distinct(t.standby) &&
    InBounds(t.free, |t.segments|) && InBounds(t.standby, |t.segments|) &&
    (forall i :: 0 <= i < |t.segments| ==> SlotOk(t, i)) &&
    IndexOk(t)
  }

  /** seg.next != nullptr: the segment is on the standby list, or on the
      free list but not its last element. */
  predicate Linked(t: Tables, i: nat)
  {
    i in t.standby || (i in t.free && i != t.free[|t.free| - 1])
  }

  // ---------------------------------------------------------------------
  // Lists

  /** The list without (the first occurrence of) x. */
  function Without(s: seq<nat>, x: nat): (r: seq<nat>)
    ensures forall y :: y in r ==> y in s
  {
    if s == [] then []
    else if s[0] == x then s[1..]
    else [s[0]] + Without(s[1..], x)
  }

  lemma {:induction false} WithoutDistinct(s: seq<nat>, x: nat)
    requires Distinct(s)
    ensures Distinct(Without(s, x))
    ensures forall y :: y in Without(s, x) <==> y in s && y != x
  {
    if s != [] && s[0] != x {
      WithoutDistinct(s[1..], x);
      var r := Without(s, x);
      assert r == [s[0]] + Without(s[1..], x);
      forall a, b | 0 <= a < b < |r|
        ensures r[a] != r[b]
      {
        if a == 0 {
          assert r[b] in Without(s[1..], x);
        }
      }
    } else if s != [] {
      assert forall y :: y in s ==> y == s[0] || y in s[1..];
    }
  }

  /** Unlinking the element at position k of a list without duplicates
      leaves the elements before and after it. */
  lemma {:induction false} WithoutAt(s: seq<nat>, k: nat)
    requires Distinct(s) && k < |s|
    ensures Without(s, s[k]) == s[..k] + s[k + 1..]
  {
    if k > 0 {
      var tail := s[1..];
      DistinctTail(s);
      WithoutAt(tail, k - 1);
      assert tail[k - 1] == s[k];
      assert s[0] != s[k];
      calc {
        Without(s, s[k]);
        [s[0]] + Without(tail, s[k]);
        [s[0]] + (tail[..k - 1] + tail[k..]);
        { assert tail[..k - 1] == s[1..k]; assert tail[k..] == s[k + 1..]; }
        [s[0]] + (s[1..k] + s[k + 1..]);
        ([s[0]] + s[1..k]) + s[k + 1..];
        { assert s[..k] == [s[0]] + s[1..k]; }
        s[..k] + s[k + 1..];
      }
    } else {
      assert s[..k] + s[k + 1..] == s[1..];
    }
  }

  lemma DistinctTail(s: seq<nat>)
    requires Distinct(s) && s != []
    ensures Distinct(s[1..])
  {
    var tail := s[1..];
    forall a, b | 0 <= a < b < |tail|
      ensures tail[a] != tail[b]
    {
      assert tail[a] == s[a + 1] && tail[b] == s[b + 1];
    }
  }

  // ---------------------------------------------------------------------
  // Free list

  /** _dequeueFromFreeList: the head segment leaves the free list, in use
      and not submitted; nothing when the list is empty. */
  function PopFree(t: Tables): (r: Option<(nat, Tables)>)
    requires TablesOk(t)
    ensures r.Some? ==> r.value.0 < |t.segments| &&
                        |r.value.1.segments| == |t.segments| && |r.value.1.shared| == |t.shared|
  {
    if t.free == [] then None
    else
      var i := t.free[0];
      Some((i, t.(segments := t.segments[i := t.segments[i].(isSubmitted := false, flags := SfInUse)],
                  free := t.free[1..])))
  }

  /** _enqueueToFreeList: owner and sequence number are cleared, the flags
      become SfFree and the segment becomes the head of the free list. */
  function PushFree(t: Tables, i: nat): (r: Tables)
    requires i < |t.segments|
    ensures |r.segments| == |t.segments| && r.shared == t.shared
  {
    t.(segments := t.segments[i := t.segments[i].(owner := None, sequenceNumber := InvalidSqn, flags := SfFree)],
       free := [i] + t.free)
  }

  /** Any update of a segment that is in use and on no list, which keeps it
      in use and keeps an owner on a cacheable segment, keeps the tables
      consistent. */
  lemma SetSlot(t: Tables, i: nat, s: Segment)
    requires TablesOk(t) && i < |t.segments| && i !in t.free && i !in t.standby
    requires Has(s.flags, SfInUse) && (Has(s.flags, SfCacheable) ==> s.owner.Some?)
    ensures TablesOk(t.(segments := t.segments[i := s]))
  {
    var t' := t.(segments := t.segments[i := s]);
    forall j | 0 <= j < |t'.segments|
      ensures SlotOk(t', j)
    {
      assert SlotOk(t, j);
    }
  }

  /** The free list hands out the segment most recently put back: a segment
      released by _enqueueToFreeList is the next one _dequeueFromFreeList
      takes, and the tables stay consistent. */
  lemma PushFreeOk(t: Tables, i: nat)
    requires TablesOk(t) && i < |t.segments| && i !in t.free && i !in t.standby
    ensures TablesOk(PushFree(t, i))
    ensures PopFree(PushFree(t, i)).Some? && PopFree(PushFree(t, i)).value.0 == i
    ensures PopFree(PushFree(t, i)).value.1.free == t.free
  {
    var t' := PushFree(t, i);
    forall j | 0 <= j < |t'.segments|
      ensures SlotOk(t', j)
    {
      assert SlotOk(t, j);
    }
    assert t'.free[1..] == t.free;
  }

  /** _dequeueFromFreeList returns nothing exactly when the free list is
      empty; otherwise it returns the head, which is then in use and on no
      list, and the tables stay consistent. */
  lemma PopFreeOk(t: Tables)
    requires TablesOk(t)
    ensures PopFree(t).None? <==> t.free == []
    ensures PopFree(t).Some? ==>
              var (i, t') := PopFree(t).value;
              i == t.free[0] && TablesOk(t') && t'.free == t.free[1..] && t'.standby == t.standby &&
              i !in t'.free && i !in t'.standby && t'.segments[i].flags == SfInUse
  {
    if t.free != [] {
      var (i, t') := PopFree(t).value;
      assert t.free == [i] + t'.free;
      assert SlotOk(t, i);
      forall j | 0 <= j < |t'.segments|
        ensures SlotOk(t', j)
      {
        assert SlotOk(t, j);
      }
    }
  }

  // ---------------------------------------------------------------------
  // Standby list

  /** _enqueueToStandbyList on the list and the segment's flags: an empty
      list becomes [i]; otherwise a segment that is not low priority, or is
      a prefetch, becomes the head and loses its prefetch flag, and any
      other segment joins the tail, next in line for eviction. */
  function Enqueued(standby: seq<nat>, i: nat, flags: bv8): (r: (seq<nat>, bv8))
  {
    if standby == [] then ([i], flags)
    else if !Has(flags, SfLowPriority) || Has(flags, SfPrefetch) then ([i] + standby, flags & !SfPrefetch)
    else (standby + [i], flags)
  }

  function EnqueueStandby(t: Tables, i: nat): (r: Tables)
    requires i < |t.segments|
    ensures |r.segments| == |t.segments| && r.shared == t.shared
  {
    var (list, flags) := Enqueued(t.standby, i, t.segments[i].flags);
    t.(standby := list, segments := t.segments[i := t.segments[i].(flags := flags)])
  }

  /** _dequeueFromStandbyList: the segment is unlinked and no longer
      submitted. */
  function DequeueStandby(t: Tables, i: nat): (r: Tables)
    requires i < |t.segments|
    ensures |r.segments| == |t.segments| && r.shared == t.shared
  {
    t.(standby := Without(t.standby, i), segments := t.segments[i := t.segments[i].(isSubmitted := false)])
  }

  /** _removeStandbySegment: the segment indexed under the link leaves the
      index and the standby list; nothing when the link is not indexed. */
  function RemoveStandby(t: Tables, l: Link): (r: Option<(nat, Tables)>)
    requires TablesOk(t)
    ensures r.Some? ==> r.value.0 < |t.segments| &&
                        |r.value.1.segments| == |t.segments| && r.value.1.shared == t.shared
  {
    if l !in t.index then None
    else
      var i := t.index[l];
      Some((i, DequeueStandby(t.(index := t.index - {l}), i)))
  }

  /** _evictFromStandbyList: the least recently used segment (head->prev,
      the last of the list) is removed from the index and the list and its
      flags are reset to SfInUse; nothing when the list is empty. */
  function Evict(t: Tables): (r: Option<(nat, Tables)>)
    requires TablesOk(t)
    ensures r.Some? ==> r.value.0 < |t.segments| &&
                        |r.value.1.segments| == |t.segments| && |r.value.1.shared| == |t.shared|
  {
    if t.standby == [] then None
    else
      var i := t.standby[|t.standby| - 1];
      var t1 := RemoveStandby(t, LinkOf(t.segments[i])).value.1;
      Some((i, t1.(segments := t1.segments[i := t1.segments[i].(flags := SfInUse)])))
  }

  /** _addStandbySegment: a segment whose link is already indexed is
      purged, keeping a single copy on the standby list; otherwise it is
      indexed and enqueued. */
  function AddStandby(t: Tables, i: nat): (r: Tables)
    requires i < |t.segments| && t.segments[i].owner.Some?
    ensures |r.segments| == |t.segments| && r.shared == t.shared
  {
    var l := LinkOf(t.segments[i]);
    if l in t.index then PushFree(t, i)
    else EnqueueStandby(t.(index := t.index[l := i]), i)
  }

  /** RemoveStandby finds a segment exactly when its link is indexed; it
      returns the indexed segment, which then is on no list and is no
      longer submitted, and the tables stay consistent. */
  lemma RemoveStandbyOk(t: Tables, l: Link)
    requires TablesOk(t)
    ensures RemoveStandby(t, l).Some? <==> l in t.index
    ensures RemoveStandby(t, l).Some? ==>
              var (i, t') := RemoveStandby(t, l).value;
              i == t.index[l] && i in t.standby && TablesOk(t') &&
              t'.standby == Without(t.standby, i) && t'.free == t.free && l !in t'.index &&
              i !in t'.free && i !in t'.standby && !t'.segments[i].isSubmitted &&
              t'.segments[i].flags == t.segments[i].flags && t'.segments[i].owner == t.segments[i].owner &&
              |t'.segments| == |t.segments| &&
              (forall j :: 0 <= j < |t.segments| && j != i ==> t'.segments[j] == t.segments[j])
  {
    if l in t.index {
      var (i, t') := RemoveStandby(t, l).value;
      WithoutDistinct(t.standby, i);
      forall k | 0 <= k < |t'.standby|
        ensures t'.standby[k] < |t'.segments|
      {
        assert t'.standby[k] in t.standby;
      }
      assert SlotOk(t, i);
      forall j | 0 <= j < |t'.segments|
        ensures SlotOk(t', j)
      {
        assert SlotOk(t, j);
      }
      RemovedIndexOk(t, l, i);
    }
  }

  /** The index part of RemoveStandbyOk. */
  lemma RemovedIndexOk(t: Tables, l: Link, i: nat)
    requires IndexOk(t) && l in t.index && t.index[l] == i
    requires forall y :: y in Without(t.standby, i) <==> y in t.standby && y != i
    ensures IndexOk(DequeueStandby(t.(index := t.index - {l}), i))
  {
    var t' := DequeueStandby(t.(index := t.index - {l}), i);
    forall m | m in t'.index
      ensures t'.index[m] in t'.standby && t'.index[m] < |t'.segments| &&
              t'.segments[t'.index[m]].owner.Some? && LinkOf(t'.segments[t'.index[m]]) == m
    {
      var j := t.index[m];
      assert j != i;
      assert t'.segments[j] == t.segments[j];
    }
    forall j | j in t'.standby
      ensures j < |t'.segments| && t'.segments[j].owner.Some? &&
              LinkOf(t'.segments[j]) in t'.index && t'.index[LinkOf(t'.segments[j])] == j
    {
      assert j in t.standby && j != i;
      assert t'.segments[j] == t.segments[j];
      assert LinkOf(t.segments[j]) != l;
    }
  }

  /** Eviction takes the least recently used segment: it fails exactly when
      the standby list is empty, and otherwise returns the last segment of
      the list, which leaves the list and the index, in use and on no
      list, while the tables stay consistent. */
  lemma EvictOk(t: Tables)
    requires TablesOk(t)
    ensures Evict(t).None? <==> t.standby == []
    ensures Evict(t).Some? ==>
              var (i, t') := Evict(t).value;
              i == t.standby[|t.standby| - 1] && TablesOk(t') &&
              t'.standby == t.standby[..|t.standby| - 1] && t'.free == t.free &&
              LinkOf(t.segments[i]) !in t'.index && i !in t'.free && i !in t'.standby &&
              t'.segments[i].flags == SfInUse
  {
    if t.standby != [] {
      var k := |t.standby| - 1;
      var i := t.standby[k];
      RemoveStandbyOk(t, LinkOf(t.segments[i]));
      WithoutAt(t.standby, k);
      var t1 := RemoveStandby(t, LinkOf(t.segments[i])).value.1;
      SetSlot(t1, i, t1.segments[i].(flags := SfInUse));
    }
  }

  /** A segment ready for the standby list: in use, read-only, cacheable and
      owned. */
  predicate StandbyReady(s: Segment)
  {
    Has(s.flags, SfInUse) && Has(s.flags, SfReadOnly) && Has(s.flags, SfCacheable) && s.owner.Some?
  }

  lemma EnqueuedFlags(flags: bv8, standby: seq<nat>, i: nat)
    requires Has(flags, SfInUse) && Has(flags, SfReadOnly) && Has(flags, SfCacheable)
    ensures var f := Enqueued(standby, i, flags).1;
            Has(f, SfInUse) && Has(f, SfReadOnly) && Has(f, SfCacheable)
  {
  }

  /** Enqueuing keeps the list free of duplicates and adds exactly i. */
  lemma EnqueuedDistinct(standby: seq<nat>, i: nat, flags: bv8)
    requires Distinct(standby) && i !in standby
    ensures Distinct(Enqueued(standby, i, flags).0)
    ensures forall j :: j in Enqueued(standby, i, flags).0 <==> j in standby || j == i
  {
    var s := Enqueued(standby, i, flags).0;
    if standby != [] && s == standby + [i] {
      forall a, b | 0 <= a < b < |s| ensures s[a] != s[b] {
        if b == |s| - 1 { assert s[a] in standby; }
      }
    } else if standby != [] {
      forall a, b | 0 <= a < b < |s| ensures s[a] != s[b] {
        if a == 0 { assert s[b] in standby; }
      }
    }
  }

  /** The second half of _addStandbySegment: a segment whose link is not
      yet indexed is indexed and joins the standby list. */
  lemma IndexedEnqueueOk(t: Tables, i: nat)
    requires TablesOk(t) && i < |t.segments| && i !in t.free && i !in t.standby
    requires StandbyReady(t.segments[i]) && LinkOf(t.segments[i]) !in t.index
    ensures var t' := EnqueueStandby(t.(index := t.index[LinkOf(t.segments[i]) := i]), i);
            TablesOk(t') && i in t'.standby && t'.free == t.free
  {
    EnqueuedDistinct(t.standby, i, t.segments[i].flags);
    EnqueuedSlotsOk(t, t.index[LinkOf(t.segments[i]) := i], i);
    AddedIndexOk(t, i);
  }

  /** The slot part of IndexedEnqueueOk, whatever the new index. */
  lemma EnqueuedSlotsOk(t: Tables, index: map<Link, nat>, i: nat)
    requires TablesOk(t) && i < |t.segments| && i !in t.free && i !in t.standby
    requires StandbyReady(t.segments[i])
    ensures var t' := EnqueueStandby(t.(index := index), i);
            forall j :: 0 <= j < |t'.segments| ==> SlotOk(t', j)
  {
    var t' := EnqueueStandby(t.(index := index), i);
    EnqueuedFlags(t.segments[i].flags, t.standby, i);
    EnqueuedDistinct(t.standby, i, t.segments[i].flags);
    forall j | 0 <= j < |t'.segments|
      ensures SlotOk(t', j)
    {
      assert SlotOk(t, j);
    }
  }

  /** The index part of IndexedEnqueueOk. */
  lemma AddedIndexOk(t: Tables, i: nat)
    requires IndexOk(t) && i < |t.segments| && i !in t.standby
    requires t.segments[i].owner.Some? && LinkOf(t.segments[i]) !in t.index
    requires forall j :: j in Enqueued(t.standby, i, t.segments[i].flags).0 <==> j in t.standby || j == i
    ensures IndexOk(EnqueueStandby(t.(index := t.index[LinkOf(t.segments[i]) := i]), i))
  {
    var l := LinkOf(t.segments[i]);
    var t' := EnqueueStandby(t.(index := t.index[l := i]), i);
    assert LinkOf(t'.segments[i]) == l;
    forall m | m in t'.index
      ensures t'.index[m] in t'.standby && t'.index[m] < |t'.segments| &&
              t'.segments[t'.index[m]].owner.Some? && LinkOf(t'.segments[t'.index[m]]) == m
    {
      if m != l {
        var j := t.index[m];
        assert j in t.standby && j != i;
        assert t'.segments[j] == t.segments[j];
      }
    }
    forall j | j in t'.standby
      ensures j < |t'.segments| && t'.segments[j].owner.Some? &&
              LinkOf(t'.segments[j]) in t'.index && t'.index[LinkOf(t'.segments[j])] == j
    {
      if j != i {
        assert j in t.standby;
        assert t'.segments[j] == t.segments[j];
        assert LinkOf(t.segments[j]) in t.index;
      }
    }
  }

  /** Adding a standby segment keeps the tables consistent: a segment whose
      link is already indexed goes to the free list and leaves the standby
      list as it was; any other is indexed under its link and joins the
      standby list. */
  lemma AddStandbyOk(t: Tables, i: nat)
    requires TablesOk(t) && i < |t.segments| && i !in t.free && i !in t.standby
    requires StandbyReady(t.segments[i])
    ensures TablesOk(AddStandby(t, i))
    ensures LinkOf(t.segments[i]) in t.index ==>
              AddStandby(t, i).standby == t.standby && i in AddStandby(t, i).free
    ensures LinkOf(t.segments[i]) !in t.index ==>
              var t' := AddStandby(t, i);
              i in t'.standby && t'.free == t.free && LinkOf(t.segments[i]) in t'.index &&
              t'.index[LinkOf(t.segments[i])] == i
  {
    if LinkOf(t.segments[i]) in t.index {
      PushFreeOk(t, i);
    } else {
      IndexedEnqueueOk(t, i);
    }
  }

  /** The standby list's eviction order: with a non-empty list, a
      low-priority segment that is not a prefetch joins the tail and is the
      next one evicted; any other segment joins at the head, loses its
      prefetch flag and leaves the next eviction unchanged. */
  lemma EvictionOrder(t: Tables, i: nat)
    requires TablesOk(t) && i < |t.segments| && i !in t.free && i !in t.standby
    requires StandbyReady(t.segments[i]) && LinkOf(t.segments[i]) !in t.index && t.standby != []
    ensures TablesOk(AddStandby(t, i))
    ensures var f := t.segments[i].flags;
            Has(f, SfLowPriority) && !Has(f, SfPrefetch) ==>
              Evict(AddStandby(t, i)).Some? && Evict(AddStandby(t, i)).value.0 == i
    ensures var f := t.segments[i].flags;
            !(Has(f, SfLowPriority) && !Has(f, SfPrefetch)) ==>
              Evict(AddStandby(t, i)).Some? && Evict(t).Some? &&
              Evict(AddStandby(t, i)).value.0 == Evict(t).value.0 &&
              !Has(AddStandby(t, i).segments[i].flags, SfPrefetch)
  {
    AddStandbyOk(t, i);
    EvictOk(t);
    EvictOk(AddStandby(t, i));
  }

  // ---------------------------------------------------------------------
  // Releasing a segment

  /** _freeSegment: the segment is marked submitted; a cacheable segment of
      a buffer with the cache enabled gains the prefetch flag on a prefetch
      free, is made read-only (copying the private control element over the
      shared one) and is added to the standby list; any other segment is
      purged. */
  function Released(t: Tables, i: nat, prefetch: bool, enableCache: bool): (r: Tables)
    requires i < |t.segments| && |t.shared| == |t.segments|
    requires Has(t.segments[i].flags, SfCacheable) ==> t.segments[i].owner.Some?
    ensures |r.segments| == |t.segments| && |r.shared| == |t.shared|
  {
    var s := t.segments[i].(isSubmitted := true);
    if Has(s.flags, SfCacheable) && enableCache then
      var f := if prefetch then s.flags | SfPrefetch else s.flags;
      if !Has(f, SfReadOnly) then
        var s' := s.(flags := f | SfReadOnly);
        AddStandby(t.(segments := t.segments[i := s'], shared := t.shared[i := s'.control]), i)
      else AddStandby(t.(segments := t.segments[i := s.(flags := f)]), i)
    else PushFree(t.(segments := t.segments[i := s]), i)
  }

  lemma ReleasedFlags(f: bv8, prefetch: bool)
    requires Has(f, SfInUse) && Has(f, SfCacheable)
    ensures var g := if prefetch then f | SfPrefetch else f;
            Has(g, SfInUse) && Has(g, SfCacheable) && Has(g | SfReadOnly, SfInUse) &&
            Has(g | SfReadOnly, SfCacheable) && Has(g | SfReadOnly, SfReadOnly)
  {
  }

  /** _freeSegment keeps the tables consistent; the segment ends on the
      free list or the standby list, and on the standby list only when it
      is cacheable and the cache is enabled. */
  lemma ReleasedOk(t: Tables, i: nat, prefetch: bool, enableCache: bool)
    requires TablesOk(t) && i < |t.segments| && i !in t.free && i !in t.standby
    requires Has(t.segments[i].flags, SfCacheable) ==> t.segments[i].owner.Some?
    ensures var t' := Released(t, i, prefetch, enableCache);
            TablesOk(t') && (i in t'.free || i in t'.standby)
    ensures !(Has(t.segments[i].flags, SfCacheable) && enableCache) ==>
              var t' := Released(t, i, prefetch, enableCache);
              i in t'.free && t'.standby == t.standby
  {
    assert SlotOk(t, i);
    var s := t.segments[i].(isSubmitted := true);
    if Has(s.flags, SfCacheable) && enableCache {
      ReleasedCachedOk(t, i, prefetch);
    } else {
      SetSlot(t, i, s);
      PushFreeOk(t.(segments := t.segments[i := s]), i);
    }
  }

  /** The cached branch of ReleasedOk: the segment joins the standby list,
      or the free list when its link is already indexed. */
  lemma ReleasedCachedOk(t: Tables, i: nat, prefetch: bool)
    requires TablesOk(t) && i < |t.segments| && i !in t.free && i !in t.standby
    requires Has(t.segments[i].flags, SfCacheable) && t.segments[i].owner.Some?
    ensures var t' := Released(t, i, prefetch, true);
            TablesOk(t') && (i in t'.free || i in t'.standby)
  {
    assert SlotOk(t, i);
    var s := t.segments[i].(isSubmitted := true);
    ReleasedFlags(s.flags, prefetch);
    var f := if prefetch then s.flags | SfPrefetch else s.flags;
    if !Has(f, SfReadOnly) {
      var s' := s.(flags := f | SfReadOnly);
      SetSlot(t, i, s');
      var t2 := t.(segments := t.segments[i := s']);
      SetShared(t2, i, s'.control);
      AddStandbyOk(t2.(shared := t.shared[i := s'.control]), i);
    } else {
      SetSlot(t, i, s.(flags := f));
      AddStandbyOk(t.(segments := t.segments[i := s.(flags := f)]), i);
    }
  }

  // ---------------------------------------------------------------------
  // Requesting a segment

  /** _prepareSegment: the shared control element is cleared and given the
      owner's stream id (INVALID_STREAM_ID for a scratch segment), the
      sequence number, invalid cycle counts, the current time as start time
      and an invalid end time; the private copy, the owner and the sequence
      number follow. */
  function Prepared(t: Tables, i: nat, owner: Option<Owner>, sqn: nat, now: nat): (r: Tables)
    requires i < |t.segments| && |t.shared| == |t.segments|
    ensures |r.segments| == |t.segments| && |r.shared| == |t.shared|
  {
    var c := ZeroControl.(stream := if owner.Some? then owner.value.stream else InvalidStreamId,
                          sequenceNumber := sqn, startCycle := InvalidLarge, endCycle := InvalidLarge,
                          startTime := now, endTime := InvalidLarge);
    t.(shared := t.shared[i := c],
       segments := t.segments[i := t.segments[i].(control := c, owner := owner, sequenceNumber := sqn)])
  }

  /** _tryAllocateFreeSegment without its retries: the head of the free
      list, else the least recently used standby segment, prepared for the
      owner; nothing when both lists are empty. */
  function Allocated(t: Tables, owner: Option<Owner>, sqn: nat, now: nat): (r: Option<(nat, Tables)>)
    requires TablesOk(t)
    ensures r.Some? ==> r.value.0 < |t.segments| &&
                        |r.value.1.segments| == |t.segments| && |r.value.1.shared| == |t.shared|
  {
    var got := if t.free != [] then PopFree(t) else Evict(t);
    if got.None? then None
    else Some((got.value.0, Prepared(got.value.1, got.value.0, owner, sqn, now)))
  }

  /** The control element of a segment loaded from a storage location: the
      location's cycle, time and index ranges, its entry count when it has
      an entry index, and its raw entry count. */
  function Loaded(c: ControlElement, l: SI.StorageLocation): (r: ControlElement)
    requires SI.LocationOk(l)
  {
    c.(startCycle := l.ranges[1].start, endCycle := l.ranges[1].end,
       startTime := l.ranges[2].start, endTime := l.ranges[2].end,
       startIndex := l.ranges[0].start,
       entryCount := if l.ranges[0].start != InvalidLarge then SI.EntryCount(l) else c.entryCount,
       rawEntryCount := l.rawEntryCount)
  }

  /** _requestSegment: a stream's segment still on the standby list is taken
      back from it; otherwise a segment is allocated, nothing when none is
      left. With a storage location it becomes read-only, cacheable when the
      cache is enabled (and then low priority for random or sequential-scan
      access), and its control element is loaded from the location. Without
      one it is a scratch segment when there is no owner, and a cacheable,
      low-priority write segment when the cache is enabled. */
  function Requested(t: Tables, owner: Option<Owner>, sqn: nat, location: Option<SI.StorageLocation>,
                     access: bv8, now: nat, enableCache: bool): (r: (Option<nat>, Tables))
    requires TablesOk(t)
    requires location.Some? ==> owner.Some? && SI.LocationOk(location.value)
    ensures |r.1.segments| == |t.segments| && (r.0.Some? ==> r.0.value < |t.segments|)
  {
    var hit := if owner.Some? then RemoveStandby(t, Link(owner.value.store, owner.value.stream, sqn)) else None;
    if hit.Some? then (Some(hit.value.0), hit.value.1)
    else
      var got := Allocated(t, owner, sqn, now);
      if got.None? then (None, t)
      else
        var (i, t1) := got.value;
        (Some(i), Setup(t1, i, owner, location, access, enableCache))
  }

  /** The tail of _requestSegment on a freshly allocated segment i: the
      flags and, with a storage location, the loaded control element. */
  function Setup(t: Tables, i: nat, owner: Option<Owner>, location: Option<SI.StorageLocation>,
                 access: bv8, enableCache: bool): (r: Tables)
    requires i < |t.segments| && |t.shared| == |t.segments|
    requires location.Some? ==> SI.LocationOk(location.value)
    ensures |r.segments| == |t.segments|
  {
    var s := t.segments[i];
    if location.Some? then
      var f := s.flags | SfReadOnly;
      var f' := if !enableCache then f
                else if Has(access, SafRandomAccess) || Has(access, SafSequentialScan) then f | SfCacheable | SfLowPriority
                else f | SfCacheable;
      var c := Loaded(t.shared[i], location.value);
      t.(shared := t.shared[i := c], segments := t.segments[i := s.(flags := f', control := c)])
    else
      var f := if owner.None? then s.flags | SfScratch
               else if enableCache then s.flags | SfCacheable | SfLowPriority
               else s.flags;
      t.(segments := t.segments[i := s.(flags := f)])
  }

  /** What the encoder's read of a segment loaded from a storage location
      came to: complete, still running (an asynchronous read), or an
      exception. */
  datatype ReadOutcome = ReadDone | ReadPending | ReadFailed(error: Exception)

  /** _requestSegment with the encoder's read: the segment, or nothing,
      and whether the request is complete. A segment freshly allocated for
      a storage location is read by the encoder: a read that throws purges
      the segment (it goes back to the free list) and the exception passes
      on; a pending read leaves the request incomplete. A standby hit, an
      exhausted buffer and a request without a location are complete. */
  function RequestedRead(t: Tables, owner: Option<Owner>, sqn: nat, location: Option<SI.StorageLocation>,
                         access: bv8, now: nat, enableCache: bool, read: ReadOutcome)
    : (r: (Result<(Option<nat>, bool), Exception>, Tables))
    requires TablesOk(t)
    requires location.Some? ==> owner.Some? && SI.LocationOk(location.value)
  {
    var q := Requested(t, owner, sqn, location, access, now, enableCache);
    if location.None? || q.0.None? || Link(owner.value.store, owner.value.stream, sqn) in t.index then
      (Ok((q.0, true)), q.1)
    else
      match read
      case ReadDone => (Ok((q.0, true)), q.1)
      case ReadPending => (Ok((q.0, false)), q.1)
      case ReadFailed(e) => (Err(e), PushFree(q.1, q.0.value))
  }

  /** The encoder's read decides only a request that allocated a segment
      for a storage location: the request fails exactly when that read
      throws, with the read's exception, and the segment is then back at
      the head of the free list; it is incomplete exactly when that read is
      pending. Otherwise the request is _requestSegment's, and the tables
      stay consistent either way. */
  lemma {:induction false} RequestedReadOk(t: Tables, owner: Option<Owner>, sqn: nat,
                                           location: Option<SI.StorageLocation>, access: bv8, now: nat,
                                           enableCache: bool, read: ReadOutcome)
    requires TablesOk(t)
    requires location.Some? ==> owner.Some? && SI.LocationOk(location.value)
    ensures TablesOk(RequestedRead(t, owner, sqn, location, access, now, enableCache, read).1)
    ensures RequestedRead(t, owner, sqn, location, access, now, enableCache, read).0.Err? <==>
              location.Some? && read.ReadFailed? && (t.free != [] || t.standby != []) &&
              Link(owner.value.store, owner.value.stream, sqn) !in t.index
    ensures RequestedRead(t, owner, sqn, location, access, now, enableCache, read).0.Err? ==>
              read.ReadFailed? &&
              RequestedRead(t, owner, sqn, location, access, now, enableCache, read).0.error == read.error &&
              var i := Requested(t, owner, sqn, location, access, now, enableCache).0.value;
              var t' := RequestedRead(t, owner, sqn, location, access, now, enableCache, read).1;
              t'.free == [i] + Requested(t, owner, sqn, location, access, now, enableCache).1.free &&
              t'.segments[i].flags == SfFree
    ensures RequestedRead(t, owner, sqn, location, access, now, enableCache, read).0.Ok? ==>
              RequestedRead(t, owner, sqn, location, access, now, enableCache, read) ==
                (Ok((Requested(t, owner, sqn, location, access, now, enableCache).0,
                     RequestedRead(t, owner, sqn, location, access, now, enableCache, read).0.value.1)),
                 Requested(t, owner, sqn, location, access, now, enableCache).1)
    ensures (RequestedRead(t, owner, sqn, location, access, now, enableCache, read).0.Ok? &&
             !RequestedRead(t, owner, sqn, location, access, now, enableCache, read).0.value.1) <==>
            location.Some? && read.ReadPending? && (t.free != [] || t.standby != []) &&
            Link(owner.value.store, owner.value.stream, sqn) !in t.index
  {
    RequestedOk(t, owner, sqn, location, access, now, enableCache);
    var q := Requested(t, owner, sqn, location, access, now, enableCache);
    if location.Some? && q.0.Some? && Link(owner.value.store, owner.value.stream, sqn) !in t.index && read.ReadFailed? {
      PushFreeOk(q.1, q.0.value);
    }
  }

  lemma SetShared(t: Tables, i: nat, c: ControlElement)
    requires TablesOk(t) && i < |t.shared|
    ensures TablesOk(t.(shared := t.shared[i := c]))
  {
    var t' := t.(shared := t.shared[i := c]);
    forall j | 0 <= j < |t'.segments|
      ensures SlotOk(t', j)
    {
      assert SlotOk(t, j);
    }
  }

  lemma PreparedOk(t: Tables, i: nat, owner: Option<Owner>, sqn: nat, now: nat)
    requires TablesOk(t) && i < |t.segments| && i !in t.free && i !in t.standby
    requires t.segments[i].flags == SfInUse
    ensures var t' := Prepared(t, i, owner, sqn, now);
            TablesOk(t') && t'.free == t.free && t'.standby == t.standby && t'.segments[i].flags == SfInUse
  {
    var c := Prepared(t, i, owner, sqn, now).shared[i];
    var s := Prepared(t, i, owner, sqn, now).segments[i];
    SetSlot(t, i, s);
    SetShared(t.(segments := t.segments[i := s]), i, c);
  }

  lemma AllocatedOk(t: Tables, owner: Option<Owner>, sqn: nat, now: nat)
    requires TablesOk(t)
    ensures Allocated(t, owner, sqn, now).None? <==> t.free == [] && t.standby == []
    ensures Allocated(t, owner, sqn, now).Some? ==>
              var (i, t') := Allocated(t, owner, sqn, now).value;
              TablesOk(t') && i !in t'.free && i !in t'.standby && t'.segments[i].flags == SfInUse
  {
    PopFreeOk(t);
    EvictOk(t);
    var got := if t.free != [] then PopFree(t) else Evict(t);
    if got.Some? {
      PreparedOk(got.value.1, got.value.0, owner, sqn, now);
    }
  }

  /** _requestSegment keeps the tables consistent and hands out a segment
      that is in use and on no list. It finds none exactly when both the
      free and the standby list are empty, and a stream's segment that is
      still indexed on the standby list is handed back rather than a new
      one. */
  lemma RequestedOk(t: Tables, owner: Option<Owner>, sqn: nat, location: Option<SI.StorageLocation>,
                    access: bv8, now: nat, enableCache: bool)
    requires TablesOk(t)
    requires location.Some? ==> owner.Some? && SI.LocationOk(location.value)
    ensures var (r, t') := Requested(t, owner, sqn, location, access, now, enableCache);
            TablesOk(t') &&
            (r.None? <==> t.free == [] && t.standby == []) &&
            (r.Some? ==> r.value < |t'.segments| && r.value !in t'.free && r.value !in t'.standby &&
                         Has(t'.segments[r.value].flags, SfInUse))
    ensures owner.Some? && Link(owner.value.store, owner.value.stream, sqn) in t.index ==>
              Requested(t, owner, sqn, location, access, now, enableCache).0 ==
                Some(t.index[Link(owner.value.store, owner.value.stream, sqn)])
  {
    var hit := if owner.Some? then RemoveStandby(t, Link(owner.value.store, owner.value.stream, sqn)) else None;
    if owner.Some? {
      RemoveStandbyOk(t, Link(owner.value.store, owner.value.stream, sqn));
    }
    if hit.Some? {
      assert SlotOk(t, hit.value.0);
      return;
    }
    if t.free == [] && t.standby == [] {
      assert forall l :: l !in t.index;
    }
    AllocatedOk(t, owner, sqn, now);
    var got := Allocated(t, owner, sqn, now);
    if got.Some? {
      var (i, t1) := got.value;
      SetupOk(t1, i, owner, location, access, enableCache);
    }
  }

  /** Setting up a freshly allocated segment keeps the tables consistent
      and the segment in use and on no list. */
  lemma SetupOk(t: Tables, i: nat, owner: Option<Owner>, location: Option<SI.StorageLocation>,
                access: bv8, enableCache: bool)
    requires TablesOk(t) && i < |t.segments| && i !in t.free && i !in t.standby
    requires t.segments[i].flags == SfInUse && t.segments[i].owner == owner
    requires location.Some? ==> owner.Some? && SI.LocationOk(location.value)
    ensures var r := Setup(t, i, owner, location, access, enableCache);
            TablesOk(r) && r.free == t.free && r.standby == t.standby && Has(r.segments[i].flags, SfInUse)
  {
    var s := t.segments[i];
    if location.Some? {
      var f := s.flags | SfReadOnly;
      var f' := if !enableCache then f
                else if Has(access, SafRandomAccess) || Has(access, SafSequentialScan) then f | SfCacheable | SfLowPriority
                else f | SfCacheable;
      var c := Loaded(t.shared[i], location.value);
      SetSlot(t, i, s.(flags := f', control := c));
      SetShared(t.(segments := t.segments[i := s.(flags := f', control := c)]), i, c);
      assert t.(shared := t.shared[i := c], segments := t.segments[i := s.(flags := f', control := c)]) ==
             t.(segments := t.segments[i := s.(flags := f', control := c)]).(shared := t.shared[i := c]);
    } else {
      var f := if owner.None? then s.flags | SfScratch
               else if enableCache then s.flags | SfCacheable | SfLowPriority
               else s.flags;
      SetSlot(t, i, s.(flags := f));
    }
  }

  // ---------------------------------------------------------------------
  // The guarded operations

  /** freeSegment's check: the segment is in use, not linked, and read-only
      or already submitted (a writable segment's control element is only up
      to date once submitted). */
  predicate MayFree(t: Tables, i: nat)
    requires i < |t.segments|
  {
    var s := t.segments[i];
    Has(s.flags, SfInUse) && !Linked(t, i) && (Has(s.flags, SfReadOnly) || s.isSubmitted)
  }

  /** purgeSegment's check: the segment is in use and not linked. */
  predicate MayPurge(t: Tables, i: nat)
    requires i < |t.segments|
  {
    Has(t.segments[i].flags, SfInUse) && !Linked(t, i)
  }

  /** submitSegment's checks: the segment has an owner, is in use, is not
      linked and has not been submitted yet. */
  predicate MaySubmit(t: Tables, i: nat)
    requires i < |t.segments|
  {
    var s := t.segments[i];
    s.owner.Some? && Has(s.flags, SfInUse) && !Linked(t, i) && !s.isSubmitted
  }

  /** freeSegment. */
  function Freed(t: Tables, i: nat, prefetch: bool, enableCache: bool): (r: Result<Tables, Exception>)
    requires TablesOk(t)
  {
    if i >= |t.segments| then Err(ArgumentOutOfBounds)
    else if !MayFree(t, i) then Err(InvalidOperation)
    else
      assert SlotOk(t, i);
      Ok(Released(t, i, prefetch, enableCache))
  }

  /** purgeSegment. */
  function Purged(t: Tables, i: nat): (r: Result<Tables, Exception>)
    requires TablesOk(t)
  {
    if i >= |t.segments| then Err(ArgumentOutOfBounds)
    else if !MayPurge(t, i) then Err(InvalidOperation)
    else Ok(PushFree(t, i))
  }

  /** getControlElement: the private copy once the segment is submitted or
      read-only, otherwise the element in the shared buffer. */
  function ControlOf(t: Tables, i: nat): (r: Result<ControlElement, Exception>)
    requires |t.shared| == |t.segments|
  {
    if i >= |t.segments| then Err(ArgumentOutOfBounds)
    else if t.segments[i].isSubmitted || Has(t.segments[i].flags, SfReadOnly) then Ok(t.segments[i].control)
    else Ok(t.shared[i])
  }

  /** The segments on a list are out of reach of freeSegment and
      purgeSegment: both refuse them with InvalidOperationException and
      leave the tables as they are; any segment in use and unlinked can be
      purged. */
  lemma ListedRefused(t: Tables, i: nat, prefetch: bool, enableCache: bool)
    requires TablesOk(t) && i < |t.segments|
    ensures i in t.free || i in t.standby ==>
              Freed(t, i, prefetch, enableCache) == Err(InvalidOperation) && Purged(t, i) == Err(InvalidOperation)
    ensures Purged(t, i).Ok? <==> i !in t.free && i !in t.standby && !Linked(t, i)
  {
    assert SlotOk(t, i);
  }

  /** A successful freeSegment or purgeSegment keeps the tables consistent;
      a purged segment is on the free list, a freed one on the free or the
      standby list. */
  lemma FreedOk(t: Tables, i: nat, prefetch: bool, enableCache: bool)
    requires TablesOk(t)
    ensures Freed(t, i, prefetch, enableCache).Ok? ==>
              var t' := Freed(t, i, prefetch, enableCache).value;
              TablesOk(t') && (i in t'.free || i in t'.standby)
    ensures Purged(t, i).Ok? ==> TablesOk(Purged(t, i).value) && i in Purged(t, i).value.free
  {
    if i < |t.segments| && MayPurge(t, i) {
      assert SlotOk(t, i);
      ReleasedOk(t, i, prefetch, enableCache);
      PushFreeOk(t, i);
    }
  }

  // ---------------------------------------------------------------------
  // Submitting a segment

  /** What the encoder did with a submitted segment: encoding continues
      asynchronously, the data was stored at a storage location, the data
      was taken without a location, or the encoder threw. */
  datatype EncoderOutcome = Pending | Stored | Discarded | Failed(error: Exception)

  /** What submitting reads beyond the tables: whether the control cookie
      matches, the current time, the first 64-bit word of the first and of
      the last valid entry, and what the stream's encoder did. */
  datatype Submission = Submission(cookieOk: bool, now: nat, firstWord: nat, lastWord: nat, encoder: EncoderOutcome)

  function WithSegment(t: Tables, i: nat, s: Segment): (r: Tables)
    requires i < |t.segments|
  {
    t.(segments := t.segments[i := s])
  }

  /** The checks and updates of the writable part of _submitSegment on the
      control element: a fixed-size stream's entry count becomes the raw
      entry count; the entry counts must fit the segment; the end time is
      set; a temporally ordered stream takes its cycle range from the first
      and the last entry (their low 48 bits), which must be valid and in
      order, and any other stream gets an invalid cycle range. A failed
      check gives its error and the control element as far as it was
      updated. */
  function Checked(c: ControlElement, owner: Owner, sub: Submission, i: nat): (r: Result<ControlElement, (Exception, ControlElement)>)
  {
    var variable := VD.IsVariableEntrySize(owner.entrySize);
    var c1 := if variable then c else c.(entryCount := c.rawEntryCount);
    if ValidLength(owner.entrySize, c1.rawEntryCount) > SB.SegmentSize ||
       (!variable && c1.entryCount != c1.rawEntryCount) || c1.entryCount > c1.rawEntryCount then
      Err((EntryCountInvalid(c1.stream, c1.sequenceNumber, i), c1))
    else
      var c2 := c1.(endTime := sub.now);
      if owner.temporalOrder then
        var c3 := c2.(startCycle := sub.firstWord % Two48, endCycle := sub.lastWord % Two48);
        if c3.startCycle == InvalidLarge || c3.endCycle == InvalidLarge || c3.startCycle > c3.endCycle then
          Err((CycleInvalid(c3.stream, i, c3.sequenceNumber), c3))
        else Ok(c3)
      else Ok(c2.(startCycle := InvalidLarge, endCycle := InvalidLarge))
  }

  /** The bytes the valid entries take: getEntrySize times the raw entry
      count. */
  function ValidLength(entrySize: bv32, rawEntryCount: nat): nat
  {
    VD.GetSizeHint(entrySize) as nat * rawEntryCount
  }

  /** The cycle check of a temporally ordered stream: once the entry counts
      pass, the check fails with the cycle error exactly when the first
      entry's cycle count (low 48 bits) is above the last one's. The masked
      counts never equal the invalid count, so the two validity tests never
      fire; an accepted control element has an ordered, valid cycle
      range. */
  lemma CheckedCycles(c: ControlElement, owner: Owner, sub: Submission, i: nat)
    requires owner.temporalOrder && c.rawEntryCount > 0
    requires ValidLength(owner.entrySize, c.rawEntryCount) <= SB.SegmentSize
    requires VD.IsVariableEntrySize(owner.entrySize) ==> c.entryCount <= c.rawEntryCount
    ensures Checked(c, owner, sub, i).Err? <==> sub.firstWord % Two48 > sub.lastWord % Two48
    ensures Checked(c, owner, sub, i).Err? ==> Checked(c, owner, sub, i).error.0 == CycleInvalid(c.stream, i, c.sequenceNumber)
    ensures Checked(c, owner, sub, i).Ok? ==>
              var r := Checked(c, owner, sub, i).value;
              r.startCycle <= r.endCycle < InvalidLarge && r.endTime == sub.now
  {
    assert sub.firstWord % Two48 < Two48 < InvalidLarge;
    assert sub.lastWord % Two48 < Two48;
  }

  /** The entry-count check: it fails, with the error naming the element's
      stream and sequence number and the segment, exactly when the valid
      entries do not fit the segment or a variable-size stream claims more
      entries than raw entries (a fixed-size stream's entry count is the
      raw entry count by then). */
  lemma CheckedCounts(c: ControlElement, owner: Owner, sub: Submission, i: nat)
    ensures (Checked(c, owner, sub, i).Err? && Checked(c, owner, sub, i).error.0.EntryCountInvalid?) <==>
            ValidLength(owner.entrySize, c.rawEntryCount) > SB.SegmentSize ||
            (VD.IsVariableEntrySize(owner.entrySize) && c.entryCount > c.rawEntryCount)
    ensures Checked(c, owner, sub, i).Err? && Checked(c, owner, sub, i).error.0.EntryCountInvalid? ==>
              Checked(c, owner, sub, i).error.0 == EntryCountInvalid(c.stream, c.sequenceNumber, i)
  {
  }

  /** The rest of _submitSegment for a writable segment: a failed check
      unsubmits the segment; then the encoder's outcome decides: the
      segment stays submitted while encoding continues, is freed once
      stored, purged when there is no location, and unsubmitted when the
      encoder throws. */
  function Encoded(t: Tables, i: nat, s: Segment, sub: Submission, enableCache: bool): (r: (Result<bool, Exception>, Tables))
    requires i < |t.segments| && |t.shared| == |t.segments| && s.owner.Some?
  {
    match Checked(s.control, s.owner.value, sub, i)
    case Err((e, c)) => (Err(e), WithSegment(t, i, s.(control := c, isSubmitted := false)))
    case Ok(c) =>
      var done := s.(control := c);
      match sub.encoder
      case Failed(e) => (Err(e), WithSegment(t, i, done.(isSubmitted := false)))
      case Pending => (Ok(false), WithSegment(t, i, done))
      case Stored => (Ok(true), Released(WithSegment(t, i, done), i, false, enableCache))
      case Discarded => (Ok(true), PushFree(WithSegment(t, i, done), i))
  }

  /** submitSegment: the guards; then a writable segment's private control
      element becomes a copy of the shared one with the owner's stream id
      and sequence number forced; the cookie is checked; the segment is
      marked submitted; a segment without entries is dropped (purged), a
      read-only one freed, and a writable one checked and encoded. The
      result says whether the submission completed. */
  function Submitted(t: Tables, i: nat, sub: Submission, enableCache: bool): (r: (Result<bool, Exception>, Tables))
    requires TablesOk(t)
  {
    if i >= |t.segments| then (Err(ArgumentOutOfBounds), t)
    else if !MaySubmit(t, i) then (Err(InvalidOperation), t)
    else
      assert SlotOk(t, i);
      var seg := t.segments[i];
      var readOnly := Has(seg.flags, SfReadOnly);
      var copied := if readOnly then seg
                    else seg.(control := t.shared[i].(stream := seg.owner.value.stream, sequenceNumber := seg.sequenceNumber));
      if !sub.cookieOk then (Err(CookieInvalid(i)), WithSegment(t, i, copied))
      else
        var marked := copied.(isSubmitted := true);
        if marked.control.rawEntryCount == 0 then (Ok(true), PushFree(WithSegment(t, i, marked), i))
        else if readOnly then (Ok(true), Released(WithSegment(t, i, marked), i, false, enableCache))
        else Encoded(t, i, marked, sub, enableCache)
  }

  /** Encoded overwrites segment i, so an earlier write to it does not
      matter. */
  lemma EncodedOverwrites(t: Tables, i: nat, s: Segment, sub: Submission, enableCache: bool)
    requires i < |t.segments| && |t.shared| == |t.segments| && s.owner.Some?
    ensures Encoded(WithSegment(t, i, s), i, s, sub, enableCache) == Encoded(t, i, s, sub, enableCache)
  {
    forall a: Segment
      ensures WithSegment(WithSegment(t, i, s), i, a) == WithSegment(t, i, a)
    {
      assert t.segments[i := s][i := a] == t.segments[i := a];
    }
  }

  lemma EncodedOk(t: Tables, i: nat, s: Segment, sub: Submission, enableCache: bool)
    requires TablesOk(t) && i < |t.segments| && i !in t.free && i !in t.standby
    requires s.owner.Some? && Has(s.flags, SfInUse)
    ensures var (r, t') := Encoded(t, i, s, sub, enableCache);
            TablesOk(t') &&
            (r.Err? ==> t'.segments[i].flags == s.flags && !t'.segments[i].isSubmitted &&
                        t'.free == t.free && t'.standby == t.standby)
  {
    match Checked(s.control, s.owner.value, sub, i)
    case Err((e, c)) =>
      SetSlot(t, i, s.(control := c, isSubmitted := false));
    case Ok(c) =>
      var done := s.(control := c);
      SetSlot(t, i, done);
      SetSlot(t, i, done.(isSubmitted := false));
      match sub.encoder
      case Failed(e) =>
      case Pending =>
      case Stored =>
        ReleasedOk(WithSegment(t, i, done), i, false, enableCache);
      case Discarded =>
        PushFreeOk(WithSegment(t, i, done), i);
  }

  /** Submitting keeps the tables consistent, and an error on a segment
      that passed the guards leaves it where it was: in use, on no list
      and not submitted. */
  lemma SubmittedOk(t: Tables, i: nat, sub: Submission, enableCache: bool)
    requires TablesOk(t)
    ensures TablesOk(Submitted(t, i, sub, enableCache).1)
    ensures Submitted(t, i, sub, enableCache).0.Err? && i < |t.segments| && MaySubmit(t, i) ==>
              var t' := Submitted(t, i, sub, enableCache).1;
              i < |t'.segments| && Has(t'.segments[i].flags, SfInUse) && !t'.segments[i].isSubmitted &&
              i !in t'.free && i !in t'.standby
  {
    if i < |t.segments| && MaySubmit(t, i) {
      assert SlotOk(t, i);
      var seg := t.segments[i];
      var readOnly := Has(seg.flags, SfReadOnly);
      var copied := if readOnly then seg
                    else seg.(control := t.shared[i].(stream := seg.owner.value.stream, sequenceNumber := seg.sequenceNumber));
      SetSlot(t, i, copied);
      if sub.cookieOk {
        var marked := copied.(isSubmitted := true);
        SetSlot(t, i, marked);
        if marked.control.rawEntryCount == 0 {
          PushFreeOk(WithSegment(t, i, marked), i);
        } else if readOnly {
          ReleasedOk(WithSegment(t, i, marked), i, false, enableCache);
        } else {
          EncodedOk(t, i, marked, sub, enableCache);
        }
      }
    }
  }

  /** A control cookie that fails the test refuses a segment that passed
      the guards, with the error naming the segment. */
  lemma SubmitRefusesCookie(t: Tables, i: nat, sub: Submission, enableCache: bool)
    requires TablesOk(t) && i < |t.segments| && MaySubmit(t, i) && !sub.cookieOk
    ensures Submitted(t, i, sub, enableCache).0 == Err(CookieInvalid(i))
  {
  }

  /** A segment whose control element (as getControlElement shows it) holds
      no entries is dropped on submit: the call completes and the segment
      goes back to the free list. */
  lemma SubmitDropsEmpty(t: Tables, i: nat, sub: Submission, enableCache: bool)
    requires TablesOk(t) && i < |t.segments| && MaySubmit(t, i) && sub.cookieOk
    requires ControlOf(t, i).value.rawEntryCount == 0
    ensures Submitted(t, i, sub, enableCache).0 == Ok(true)
    ensures i in Submitted(t, i, sub, enableCache).1.free
  {
  }

  /** The cycle check as submitSegment applies it to a writable segment of
      a temporally ordered stream whose entry counts pass: the call fails
      with the cycle error exactly when the first entry's cycle count is
      above the last one's, and a submission still being encoded shows an
      ordered, valid cycle range through getControlElement. */
  lemma SubmitCycles(t: Tables, i: nat, sub: Submission, enableCache: bool)
    requires TablesOk(t) && i < |t.segments| && MaySubmit(t, i) && sub.cookieOk && !sub.encoder.Failed?
    requires !Has(t.segments[i].flags, SfReadOnly) && t.segments[i].owner.value.temporalOrder
    requires var c := ControlOf(t, i).value;
             var e := t.segments[i].owner.value.entrySize;
             c.rawEntryCount > 0 && ValidLength(e, c.rawEntryCount) <= SB.SegmentSize &&
             (VD.IsVariableEntrySize(e) ==> c.entryCount <= c.rawEntryCount)
    ensures (Submitted(t, i, sub, enableCache).0 ==
               Err(CycleInvalid(t.segments[i].owner.value.stream, i, t.segments[i].sequenceNumber))) <==>
            sub.firstWord % Two48 > sub.lastWord % Two48
    ensures Submitted(t, i, sub, enableCache).0 == Ok(false) ==>
              var c := ControlOf(Submitted(t, i, sub, enableCache).1, i).value;
              c.startCycle <= c.endCycle < InvalidLarge
  {
    var seg := t.segments[i];
    var copied := seg.(control := t.shared[i].(stream := seg.owner.value.stream, sequenceNumber := seg.sequenceNumber));
    var marked := copied.(isSubmitted := true);
    CheckedCycles(marked.control, seg.owner.value, sub, i);
    assert Submitted(t, i, sub, enableCache) == Encoded(t, i, marked, sub, enableCache);
  }

  /** Once a submission is being encoded, getControlElement returns the
      checked private copy: whatever the client writes into the shared
      control element is not seen. */
  lemma SubmittedIsolated(t: Tables, i: nat, sub: Submission, enableCache: bool, c: ControlElement)
    requires TablesOk(t)
    requires Submitted(t, i, sub, enableCache).0 == Ok(false)
    ensures var t' := Submitted(t, i, sub, enableCache).1;
            i < |t'.shared| && ControlOf(t'.(shared := t'.shared[i := c]), i) == ControlOf(t', i)
  {
    SubmittedOk(t, i, sub, enableCache);
    if i < |t.segments| && MaySubmit(t, i) && sub.cookieOk {
      var seg := t.segments[i];
      assert !Has(seg.flags, SfReadOnly);
      var copied := seg.(control := t.shared[i].(stream := seg.owner.value.stream, sequenceNumber := seg.sequenceNumber));
      var marked := copied.(isSubmitted := true);
      assert Submitted(t, i, sub, enableCache) == Encoded(t, i, marked, sub, enableCache);
    }
  }

  // ---------------------------------------------------------------------
  // Flushing the standby list

  /** A segment of the given store, or of any store when none is given
      (INVALID_STORE_ID). */
  predicate Matches(s: Segment, store: Option<nat>)
  {
    store.None? || (s.owner.Some? && s.owner.value.store == store.value)
  }

  /** One step of flushStandbyList: a standby segment of the store leaves
      the index and the list and is purged; any other stays. */
  function FlushOne(t: Tables, i: nat, store: Option<nat>): (r: Tables)
  {
    if i < |t.segments| && t.segments[i].owner.Some? && Matches(t.segments[i], store) then
      PushFree(DequeueStandby(t.(index := t.index - {LinkOf(t.segments[i])}), i), i)
    else t
  }

  /** flushStandbyList after visiting the segments of list, in order. */
  function Flushed(t: Tables, list: seq<nat>, store: Option<nat>): (r: Tables)
  {
    if list == [] then t
    else FlushOne(Flushed(t, list[..|list| - 1], store), list[|list| - 1], store)
  }

  /** The segments of list that a flush for the store keeps, in order. */
  function Kept(segments: seq<Segment>, list: seq<nat>, store: Option<nat>): (r: seq<nat>)
  {
    if list == [] then []
    else
      var x := list[|list| - 1];
      Kept(segments, list[..|list| - 1], store) +
        (if x < |segments| && !Matches(segments[x], store) then [x] else [])
  }

  lemma {:induction false} KeptMembers(segments: seq<Segment>, list: seq<nat>, store: Option<nat>)
    ensures forall y :: y in Kept(segments, list, store) <==>
                        y in list && y < |segments| && !Matches(segments[y], store)
  {
    if list != [] {
      var prev := list[..|list| - 1];
      KeptMembers(segments, prev, store);
      assert list == prev + [list[|list| - 1]];
    }
  }

  /** A flush for all stores keeps nothing. */
  lemma {:induction false} KeptNone(segments: seq<Segment>, list: seq<nat>)
    ensures Kept(segments, list, None) == []
  {
    if list != [] {
      KeptNone(segments, list[..|list| - 1]);
    }
  }

  /** One flush step on a standby segment x with kept segments before it
      and unvisited ones after it. */
  lemma FlushOneOk(t: Tables, kept: seq<nat>, x: nat, rest: seq<nat>, store: Option<nat>)
    requires TablesOk(t) && t.standby == kept + [x] + rest
    ensures var r := FlushOne(t, x, store);
            x < |t.segments| && TablesOk(r) && |r.segments| == |t.segments| &&
            r.standby == kept + (if Matches(t.segments[x], store) then [] else [x]) + rest &&
            forall j :: 0 <= j < |t.segments| && j != x ==> r.segments[j] == t.segments[j]
  {
    assert t.standby[|kept|] == x;
    assert x in t.standby;
    if Matches(t.segments[x], store) {
      FlushMatchedOk(t, kept, x, rest, store);
    }
  }

  /** FlushOneOk for a segment of the store: it is purged. */
  lemma FlushMatchedOk(t: Tables, kept: seq<nat>, x: nat, rest: seq<nat>, store: Option<nat>)
    requires TablesOk(t) && t.standby == kept + [x] + rest
    requires x < |t.segments| && Matches(t.segments[x], store)
    ensures var r := FlushOne(t, x, store);
            TablesOk(r) && |r.segments| == |t.segments| && r.standby == kept + rest &&
            forall j :: 0 <= j < |t.segments| && j != x ==> r.segments[j] == t.segments[j]
  {
    assert t.standby[|kept|] == x;
    assert x in t.standby;
    var l := LinkOf(t.segments[x]);
    RemoveStandbyOk(t, l);
    var r1 := RemoveStandby(t, l).value.1;
    WithoutAt(t.standby, |kept|);
    assert t.standby[..|kept|] == kept;
    assert t.standby[|kept| + 1..] == rest;
    PushFreeOk(r1, x);
  }

  /** The walk after k turns, at tables r that keep the segments kept:
      r is consistent, its standby list holds the kept segments ahead of
      the segments not yet visited, and those are untouched. */
  ghost predicate Walked(t: Tables, r: Tables, kept: seq<nat>, k: nat)
  {
    k <= |t.standby| && InBounds(t.standby, |t.segments|) && TablesOk(r) && |r.segments| == |t.segments| &&
    r.standby == kept + t.standby[k..] &&
    forall m :: k <= m < |t.standby| ==> r.segments[t.standby[m]] == t.segments[t.standby[m]]
  }

  /** After visiting a prefix list of the standby list, the walk is at
      Flushed and keeps what Kept says. */
  ghost predicate FlushedInv(t: Tables, list: seq<nat>, store: Option<nat>)
  {
    Walked(t, Flushed(t, list, store), Kept(t.segments, list, store), |list|)
  }

  /** One turn of the walk: visiting the k-th segment of the original
      standby list purges it when it is of the store and keeps it
      otherwise, and leaves the segments after it untouched. */
  lemma WalkStep(t: Tables, r0: Tables, kept: seq<nat>, k: nat, store: Option<nat>)
    requires Distinct(t.standby) && k < |t.standby| && Walked(t, r0, kept, k)
    ensures var x := t.standby[k];
            Walked(t, FlushOne(r0, x, store), kept + (if x < |t.segments| && !Matches(t.segments[x], store) then [x] else []), k + 1)
  {
    var x := t.standby[k];
    var rest := t.standby[k + 1..];
    assert t.standby[k..] == [x] + rest;
    assert r0.standby == kept + [x] + rest;
    FlushOneOk(r0, kept, x, rest, store);
    var r := FlushOne(r0, x, store);
    forall m | k + 1 <= m < |t.standby|
      ensures r.segments[t.standby[m]] == t.segments[t.standby[m]]
    {
      assert t.standby[m] != x;
    }
  }

  /** The step of FlushedOk: visiting one more standby segment. */
  lemma FlushStep(t: Tables, list: seq<nat>, store: Option<nat>)
    requires Distinct(t.standby) && list <= t.standby && list != []
    requires FlushedInv(t, list[..|list| - 1], store)
    ensures FlushedInv(t, list, store)
  {
    var k := |list| - 1;
    var prev := list[..k];
    assert list[k] == t.standby[k];
    WalkStep(t, Flushed(t, prev, store), Kept(t.segments, prev, store), k, store);
  }

  /** flushStandbyList keeps its loop invariant over every prefix of the
      standby list. */
  lemma {:induction false} FlushedOk(t: Tables, list: seq<nat>, store: Option<nat>)
    requires TablesOk(t) && list <= t.standby
    ensures FlushedInv(t, list, store)
    decreases |list|
  {
    if list == [] {
      assert t.standby[0..] == t.standby;
    } else {
      assert list[..|list| - 1] <= t.standby;
      FlushedOk(t, list[..|list| - 1], store);
      FlushStep(t, list, store);
    }
  }

  /** One turn of flushStandbyList's loop, after k segments: the next
      segment of the walk is the original list's k-th, still as it was,
      and visiting it is one more step of Flushed and Kept. */
  lemma FlushVisit(t: Tables, k: nat, store: Option<nat>)
    requires TablesOk(t) && k < |t.standby|
    ensures var r := Flushed(t, t.standby[..k], store);
            var kept := Kept(t.segments, t.standby[..k], store);
            var x := t.standby[k];
            |kept| < |r.standby| && r.standby[|kept|] == x && x < |r.segments| &&
            r.segments[x] == t.segments[x] && r.segments[x].owner.Some? &&
            Flushed(t, t.standby[..k + 1], store) == FlushOne(r, x, store) &&
            |Kept(t.segments, t.standby[..k + 1], store)| == |kept| + (if Matches(t.segments[x], store) then 0 else 1)
  {
    FlushedOk(t, t.standby[..k], store);
    FlushNext(t, k, store);
    FlushAdvance(t, k, store);
  }

  /** The segment the walk visits after k turns: the original list's k-th,
      at the head of the unvisited part and still as it was. */
  lemma FlushNext(t: Tables, k: nat, store: Option<nat>)
    requires k < |t.standby| && FlushedInv(t, t.standby[..k], store)
    ensures var r := Flushed(t, t.standby[..k], store);
            var kept := Kept(t.segments, t.standby[..k], store);
            var x := t.standby[k];
            |kept| < |r.standby| && r.standby[|kept|] == x && x < |r.segments| &&
            r.segments[x] == t.segments[x] && r.segments[x].owner.Some?
  {
    var r := Flushed(t, t.standby[..k], store);
    var kept := Kept(t.segments, t.standby[..k], store);
    assert r.standby[|kept|] == t.standby[k];
    assert t.standby[k] in r.standby;
  }

  /** Flushed and Kept over one more segment of the original list. */
  lemma FlushAdvance(t: Tables, k: nat, store: Option<nat>)
    requires k < |t.standby| && InBounds(t.standby, |t.segments|)
    ensures var x := t.standby[k];
            Flushed(t, t.standby[..k + 1], store) == FlushOne(Flushed(t, t.standby[..k], store), x, store) &&
            |Kept(t.segments, t.standby[..k + 1], store)| ==
              |Kept(t.segments, t.standby[..k], store)| + (if Matches(t.segments[x], store) then 0 else 1)
  {
    var list := t.standby[..k + 1];
    assert list[..k] == t.standby[..k];
    assert list[k] == t.standby[k];
  }

  /** After k turns the walk's standby list holds the kept segments and
      the |t.standby| - k unvisited ones. */
  lemma FlushLeft(t: Tables, k: nat, store: Option<nat>)
    requires TablesOk(t) && k <= |t.standby|
    ensures |Flushed(t, t.standby[..k], store).standby| ==
            |Kept(t.segments, t.standby[..k], store)| + (|t.standby| - k)
  {
    FlushedOk(t, t.standby[..k], store);
  }

  /** flushStandbyList for one store keeps exactly the other stores'
      segments on the standby list; for all stores it empties the standby
      list and its index. */
  lemma FlushAll(t: Tables, store: Option<nat>)
    requires TablesOk(t)
    ensures var r := Flushed(t, t.standby, store);
            TablesOk(r) &&
            (forall j :: j in r.standby <==> j in t.standby && !Matches(t.segments[j], store)) &&
            (store.None? ==> r.standby == [] && r.index == map[])
  {
    FlushedOk(t, t.standby, store);
    KeptMembers(t.segments, t.standby, store);
    var r := Flushed(t, t.standby, store);
    assert t.standby[|t.standby|..] == [];
    assert r.standby == Kept(t.segments, t.standby, store);
    if store.None? {
      KeptNone(t.segments, t.standby);
      assert forall l :: l !in r.index;
    }
  }

  // ---------------------------------------------------------------------
  // A new buffer

  /** _initializeSegments: every segment free and on the free list in
      order, the standby list and its index empty. */
  function Initial(n: nat): (t: Tables)
  {
    Tables(seq(n, _ => InitialSegment), seq(n, _ => ZeroControl), seq(n, i => i), [], map[])
  }

  lemma InitialOk(n: nat)
    ensures TablesOk(Initial(n)) && |Initial(n).segments| == n
    ensures PopFree(Initial(n)).Some? <==> n > 0
  {
    var t := Initial(n);
    forall i | 0 <= i < n
      ensures i in t.free
    {
      assert t.free[i] == i;
    }
  }

  // ---------------------------------------------------------------------
  // The buffer object

  /** A server stream buffer: the array of segment headers, the control
      elements in the shared buffer, the free list, the standby list and
      its index. The next/prev pointers of the two intrusive lists are kept
      as sequences of segment ids, the standby list head first. */
  class ServerStreamBuffer {
    const enableCache: bool
    const segments: array<Segment>
    const shared: array<ControlElement>
    var free: seq<nat>
    var standby: seq<nat>
    var index: map<Link, nat>

    /** The buffer's tables, as the functions above see them. */
    function State(): Tables
      reads this, segments, shared
    {
      Tables(segments[..], shared[..], free, standby, index)
    }

    ghost predicate Valid()
      reads this, segments, shared
    {
      TablesOk(State())
    }

    /** The constructor with _initializeSegments: every segment free and on
        the free list in order. */
    constructor (numSegments: nat, enableCache: bool)
      ensures State() == Initial(numSegments) && Valid() && this.enableCache == enableCache
    {
      var segs := new Segment[numSegments];
      var ctrl := new ControlElement[numSegments];
      var list: seq<nat> := [];
      var i: nat := 0;
      while i < numSegments
        invariant i <= numSegments
        invariant forall k :: 0 <= k < i ==> segs[k] == InitialSegment && ctrl[k] == ZeroControl
        invariant list == seq(i, k => k)
      {
        segs[i] := InitialSegment;
        ctrl[i] := ZeroControl;
        list := list + [i];
        i := i + 1;
      }
      this.enableCache := enableCache;
      segments := segs;
      shared := ctrl;
      free := list;
      standby := [];
      index := map[];
      new;
      assert segments[..] == seq(numSegments, _ => InitialSegment);
      assert shared[..] == seq(numSegments, _ => ZeroControl);
      InitialOk(numSegments);
    }

    /** _dequeueFromFreeList. */
    method DequeueFromFreeList() returns (seg: Option<nat>)
      requires Valid()
      modifies this, segments
      ensures PopFree(old(State())) == if seg.None? then None else Some((seg.value, State()))
      ensures seg.None? ==> State() == old(State())
    {
      if free == [] {
        return None;
      }
      var i := free[0];
      segments[i] := segments[i].(isSubmitted := false, flags := SfInUse);
      free := free[1..];
      return Some(i);
    }

    /** _enqueueToFreeList. */
    method EnqueueToFreeList(i: nat)
      requires i < segments.Length
      modifies this, segments
      ensures State() == PushFree(old(State()), i)
    {
      segments[i] := segments[i].(owner := None, sequenceNumber := InvalidSqn, flags := SfFree);
      free := [i] + free;
    }

    /** _enqueueToStandbyList. */
    method EnqueueToStandbyList(i: nat)
      requires i < segments.Length
      modifies this, segments
      ensures State() == EnqueueStandby(old(State()), i)
    {
      var s := segments[i];
      if standby == [] {
        standby := [i];
      } else if !Has(s.flags, SfLowPriority) || Has(s.flags, SfPrefetch) {
        standby := [i] + standby;
        segments[i] := s.(flags := s.flags & !SfPrefetch);
      } else {
        standby := standby + [i];
      }
      assert segments[..] == old(segments[..])[i := old(segments[i]).(flags := segments[i].flags)];
    }

    /** _dequeueFromStandbyList. */
    method DequeueFromStandbyList(i: nat)
      requires i < segments.Length
      modifies this, segments
      ensures State() == DequeueStandby(old(State()), i)
    {
      standby := Without(standby, i);
      segments[i] := segments[i].(isSubmitted := false);
    }

    /** _removeStandbySegment. */
    method RemoveStandbySegment(l: Link) returns (seg: Option<nat>)
      requires Valid()
      modifies this, segments
      ensures RemoveStandby(old(State()), l) == if seg.None? then None else Some((seg.value, State()))
      ensures seg.None? ==> State() == old(State())
    {
      if l !in index {
        return None;
      }
      var i := index[l];
      index := index - {l};
      DequeueFromStandbyList(i);
      return Some(i);
    }

    /** _evictFromStandbyList. */
    method EvictFromStandbyList() returns (seg: Option<nat>)
      requires Valid()
      modifies this, segments
      ensures Evict(old(State())) == if seg.None? then None else Some((seg.value, State()))
      ensures seg.None? ==> State() == old(State())
    {
      if standby == [] {
        return None;
      }
      var i := standby[|standby| - 1];
      assert i in standby;
      var fseg := RemoveStandbySegment(LinkOf(segments[i]));
      segments[i] := segments[i].(flags := SfInUse);
      return Some(i);
    }

    /** _addStandbySegment. */
    method AddStandbySegment(i: nat)
      requires i < segments.Length && segments[i].owner.Some?
      modifies this, segments
      ensures State() == AddStandby(old(State()), i)
    {
      var l := LinkOf(segments[i]);
      if l in index {
        EnqueueToFreeList(i);
      } else {
        index := index[l := i];
        EnqueueToStandbyList(i);
      }
    }

    /** _freeSegment. */
    method ReleaseSegment(i: nat, prefetch: bool)
      requires i < segments.Length && shared.Length == segments.Length
      requires Has(segments[i].flags, SfCacheable) ==> segments[i].owner.Some?
      modifies this, segments, shared
      ensures State() == Released(old(State()), i, prefetch, enableCache)
    {
      ghost var t := State();
      var s := segments[i].(isSubmitted := true);
      if Has(s.flags, SfCacheable) && enableCache {
        var f := if prefetch then s.flags | SfPrefetch else s.flags;
        if !Has(f, SfReadOnly) {
          s := s.(flags := f | SfReadOnly);
          segments[i] := s;
          shared[i] := s.control;
          ghost var mid := t.(segments := t.segments[i := s], shared := t.shared[i := s.control]);
          assert State() == mid;
          assert Released(t, i, prefetch, enableCache) == AddStandby(mid, i);
        } else {
          segments[i] := s.(flags := f);
          ghost var mid := t.(segments := t.segments[i := s.(flags := f)]);
          assert State() == mid;
          assert Released(t, i, prefetch, enableCache) == AddStandby(mid, i);
        }
        AddStandbySegment(i);
      } else {
        segments[i] := s;
        assert State() == t.(segments := t.segments[i := s]);
        ghost var mid := State();
        assert Released(t, i, prefetch, enableCache) == PushFree(mid, i);
        EnqueueToFreeList(i);
      }
    }

    /** _prepareSegment. */
    method PrepareSegment(i: nat, owner: Option<Owner>, sqn: nat, now: nat)
      requires i < segments.Length && shared.Length == segments.Length
      modifies segments, shared
      ensures State() == Prepared(old(State()), i, owner, sqn, now)
    {
      var c := ZeroControl.(stream := if owner.Some? then owner.value.stream else InvalidStreamId,
                            sequenceNumber := sqn, startCycle := InvalidLarge, endCycle := InvalidLarge,
                            startTime := now, endTime := InvalidLarge);
      shared[i] := c;
      segments[i] := segments[i].(control := c, owner := owner, sequenceNumber := sqn);
    }

    /** _tryAllocateFreeSegment without its retries. */
    method TryAllocateFreeSegment(owner: Option<Owner>, sqn: nat, now: nat) returns (seg: Option<nat>)
      requires Valid()
      modifies this, segments, shared
      ensures Allocated(old(State()), owner, sqn, now) == if seg.None? then None else Some((seg.value, State()))
      ensures seg.None? ==> State() == old(State())
    {
      PopFreeOk(State());
      seg := DequeueFromFreeList();
      if seg.None? {
        seg := EvictFromStandbyList();
      }
      if seg.Some? {
        PrepareSegment(seg.value, owner, sqn, now);
      }
    }

    /** _requestSegment: a standby hit, else an allocation, which is loaded
        from the storage location when there is one and then read by the
        encoder (its outcome is the parameter read). */
    method RequestSegmentInternal(owner: Option<Owner>, sqn: nat, location: Option<SI.StorageLocation>,
                                  access: bv8, now: nat, read: ReadOutcome)
      returns (r: Result<(Option<nat>, bool), Exception>)
      requires Valid()
      requires location.Some? ==> owner.Some? && SI.LocationOk(location.value)
      modifies this, segments, shared
      ensures (r, State()) == RequestedRead(old(State()), owner, sqn, location, access, now, enableCache, read)
    {
      var seg: Option<nat>;
      if owner.Some? {
        seg := RemoveStandbySegment(Link(owner.value.store, owner.value.stream, sqn));
        if seg.Some? {
          return Ok((seg, true));
        }
      }
      seg := TryAllocateFreeSegment(owner, sqn, now);
      if seg.None? {
        return Ok((None, true));
      }
      SetupSegment(seg.value, owner, location, access);
      if location.None? {
        return Ok((seg, true));
      }
      match read {
        case ReadDone => r := Ok((seg, true));
        case ReadPending => r := Ok((seg, false));
        case ReadFailed(e) =>
          EnqueueToFreeList(seg.value);
          r := Err(e);
      }
    }

    /** The tail of _requestSegment on a freshly allocated segment. */
    method SetupSegment(i: nat, owner: Option<Owner>, location: Option<SI.StorageLocation>, access: bv8)
      requires i < segments.Length && shared.Length == segments.Length
      requires location.Some? ==> SI.LocationOk(location.value)
      modifies segments, shared
      ensures State() == Setup(old(State()), i, owner, location, access, enableCache)
    {
      if location.Some? {
        LoadSegment(i, owner, location.value, access);
      } else {
        MarkSegment(i, owner, access);
      }
    }

    /** SetupSegment with a storage location: the segment becomes
        read-only (and cacheable, perhaps low priority) and its control
        element is loaded from the location. */
    method LoadSegment(i: nat, owner: Option<Owner>, location: SI.StorageLocation, access: bv8)
      requires i < segments.Length && shared.Length == segments.Length && SI.LocationOk(location)
      modifies segments, shared
      ensures State() == Setup(old(State()), i, owner, Some(location), access, enableCache)
    {
      ghost var t := State();
      var s := segments[i];
      var f := s.flags | SfReadOnly;
      var f' := if !enableCache then f
                else if Has(access, SafRandomAccess) || Has(access, SafSequentialScan) then f | SfCacheable | SfLowPriority
                else f | SfCacheable;
      var c := Loaded(shared[i], location);
      assert Setup(t, i, owner, Some(location), access, enableCache) ==
             t.(shared := t.shared[i := c], segments := t.segments[i := s.(flags := f', control := c)]);
      shared[i] := c;
      segments[i] := s.(flags := f', control := c);
      assert shared[..] == t.shared[i := c];
      assert segments[..] == t.segments[i := s.(flags := f', control := c)];
    }

    /** SetupSegment without a storage location: a scratch segment without
        an owner, a cacheable low-priority one with an owner when the cache
        is enabled. */
    method MarkSegment(i: nat, owner: Option<Owner>, access: bv8)
      requires i < segments.Length && shared.Length == segments.Length
      modifies segments
      ensures State() == Setup(old(State()), i, owner, None, access, enableCache)
    {
      ghost var t := State();
      var s := segments[i];
      if owner.None? {
        segments[i] := s.(flags := s.flags | SfScratch);
        assert segments[..] == t.segments[i := s.(flags := s.flags | SfScratch)];
      } else if enableCache {
        segments[i] := s.(flags := s.flags | SfCacheable | SfLowPriority);
        assert segments[..] == t.segments[i := s.(flags := s.flags | SfCacheable | SfLowPriority)];
      } else {
        assert segments[..] == t.segments[i := s];
      }
    }

    /** requestSegment: a stream's segment, refused for the invalid
        sequence number; nothing when the buffer is exhausted. */
    method RequestSegment(owner: Owner, sqn: nat, now: nat) returns (r: Result<Option<nat>, Exception>)
      requires Valid()
      modifies this, segments, shared
      ensures sqn == InvalidSqn ==> r == Err(Argument) && State() == old(State())
      ensures sqn != InvalidSqn ==>
                r.Ok? && (r.value, State()) == Requested(old(State()), Some(owner), sqn, None, 0, now, enableCache)
      ensures Valid()
    {
      if sqn == InvalidSqn {
        return Err(Argument);
      }
      RequestedOk(State(), Some(owner), sqn, None, 0, now, enableCache);
      var q := RequestSegmentInternal(Some(owner), sqn, None, 0, now, ReadDone);
      return Ok(q.value.0);
    }

    /** requestScratchSegment. */
    method RequestScratchSegment(now: nat) returns (seg: Option<nat>)
      requires Valid()
      modifies this, segments, shared
      ensures (seg, State()) == Requested(old(State()), None, InvalidSqn, None, 0, now, enableCache)
      ensures Valid()
    {
      RequestedOk(State(), None, InvalidSqn, None, 0, now, enableCache);
      var q := RequestSegmentInternal(None, InvalidSqn, None, 0, now, ReadDone);
      seg := q.value.0;
    }

    /** openSegment: a stream's segment loaded from a storage location;
        read is what the encoder's read of a freshly allocated segment
        comes to. */
    method OpenSegment(owner: Owner, sqn: nat, access: bv8, location: SI.StorageLocation, now: nat,
                       read: ReadOutcome)
      returns (r: Result<(Option<nat>, bool), Exception>)
      requires Valid() && SI.LocationOk(location)
      modifies this, segments, shared
      ensures (r, State()) == RequestedRead(old(State()), Some(owner), sqn, Some(location), access, now, enableCache, read)
      ensures Valid()
    {
      RequestedReadOk(State(), Some(owner), sqn, Some(location), access, now, enableCache, read);
      r := RequestSegmentInternal(Some(owner), sqn, Some(location), access, now, read);
    }

    /** Whether segment i is linked: on the standby list, or on the free
        list but not its last element. */
    function IsLinked(i: nat): (r: bool)
      reads this
      ensures r == Linked(Tables([], [], free, standby, map[]), i)
    {
      i in standby || (i in free && i != free[|free| - 1])
    }

    /** freeSegment. */
    method FreeSegment(i: nat, prefetch: bool) returns (error: Option<Exception>)
      requires Valid()
      modifies this, segments, shared
      ensures match Freed(old(State()), i, prefetch, enableCache)
              case Ok(t') => error.None? && State() == t'
              case Err(e) => error == Some(e) && State() == old(State())
      ensures Valid()
    {
      FreedOk(State(), i, prefetch, enableCache);
      if i >= segments.Length {
        return Some(ArgumentOutOfBounds);
      }
      var s := segments[i];
      if !Has(s.flags, SfInUse) || IsLinked(i) || (!Has(s.flags, SfReadOnly) && !s.isSubmitted) {
        return Some(InvalidOperation);
      }
      assert SlotOk(State(), i);
      ReleaseSegment(i, prefetch);
      return None;
    }

    /** purgeSegment. */
    method PurgeSegment(i: nat) returns (error: Option<Exception>)
      requires Valid()
      modifies this, segments
      ensures match Purged(old(State()), i)
              case Ok(t') => error.None? && State() == t'
              case Err(e) => error == Some(e) && State() == old(State())
      ensures Valid()
    {
      FreedOk(State(), i, false, enableCache);
      if i >= segments.Length {
        return Some(ArgumentOutOfBounds);
      }
      if !Has(segments[i].flags, SfInUse) || IsLinked(i) {
        return Some(InvalidOperation);
      }
      EnqueueToFreeList(i);
      return None;
    }

    /** getControlElement. */
    method GetControlElement(i: nat) returns (r: Result<ControlElement, Exception>)
      requires shared.Length == segments.Length
      ensures r == ControlOf(State(), i)
    {
      if i >= segments.Length {
        return Err(ArgumentOutOfBounds);
      }
      var s := segments[i];
      if s.isSubmitted || Has(s.flags, SfReadOnly) {
        return Ok(s.control);
      }
      return Ok(shared[i]);
    }

    /** submitSegment with _submitSegment. */
    method SubmitSegment(i: nat, sub: Submission) returns (r: Result<bool, Exception>)
      requires Valid()
      modifies this, segments, shared
      ensures (r, State()) == Submitted(old(State()), i, sub, enableCache)
      ensures Valid()
    {
      SubmittedOk(State(), i, sub, enableCache);
      if i >= segments.Length {
        return Err(ArgumentOutOfBounds);
      }
      var seg := segments[i];
      if seg.owner.None? || !Has(seg.flags, SfInUse) || IsLinked(i) || seg.isSubmitted {
        return Err(InvalidOperation);
      }
      ghost var t := State();
      var readOnly := Has(seg.flags, SfReadOnly);
      if !readOnly {
        seg := seg.(control := shared[i].(stream := seg.owner.value.stream, sequenceNumber := seg.sequenceNumber));
      }
      if !sub.cookieOk {
        segments[i] := seg;
        return Err(CookieInvalid(i));
      }
      seg := seg.(isSubmitted := true);
      segments[i] := seg;
      assert State() == WithSegment(t, i, seg);
      if seg.control.rawEntryCount == 0 {
        EnqueueToFreeList(i);
        return Ok(true);
      }
      if readOnly {
        ReleaseSegment(i, false);
        return Ok(true);
      }
      EncodedOverwrites(t, i, seg, sub, enableCache);
      r := EncodeSegment(i, seg, sub);
    }

    /** The rest of _submitSegment for a writable segment s, already stored
        at i: the checks, then the encoder's outcome. */
    method EncodeSegment(i: nat, s: Segment, sub: Submission) returns (r: Result<bool, Exception>)
      requires i < segments.Length && shared.Length == segments.Length && s.owner.Some?
      modifies this, segments, shared
      ensures (r, State()) == Encoded(old(State()), i, s, sub, enableCache)
    {
      match Checked(s.control, s.owner.value, sub, i)
      case Err((e, c)) =>
        segments[i] := s.(control := c, isSubmitted := false);
        r := Err(e);
      case Ok(c) =>
        var done := s.(control := c);
        match sub.encoder
        case Failed(e) =>
          segments[i] := done.(isSubmitted := false);
          r := Err(e);
        case Pending =>
          segments[i] := done;
          r := Ok(false);
        case Stored =>
          segments[i] := done;
          ReleaseSegment(i, false);
          r := Ok(true);
        case Discarded =>
          segments[i] := done;
          EnqueueToFreeList(i);
          r := Ok(true);
    }

    /** flushStandbyList: walks the standby list from its head to the
        segment that was last when it started, purging every segment of
        the store (of any store when none is given). */
    method FlushStandbyList(store: Option<nat>)
      requires Valid()
      modifies this, segments
      ensures State() == Flushed(old(State()), old(standby), store)
      ensures Valid()
      ensures store.None? ==> standby == [] && index == map[]
    {
      ghost var t := State();
      assert t.standby[..0] == [];
      var pos: nat := 0;
      ghost var k: nat := 0;
      while pos < |standby|
        invariant k <= |t.standby|
        invariant State() == Flushed(t, t.standby[..k], store)
        invariant pos == |Kept(t.segments, t.standby[..k], store)|
        decreases |t.standby| - k
      {
        FlushLeft(t, k, store);
        FlushVisit(t, k, store);
        var x := standby[pos];
        var matched := Matches(segments[x], store);
        FlushSegment(x, store);
        if !matched {
          pos := pos + 1;
        }
        k := k + 1;
      }
      FlushLeft(t, k, store);
      assert t.standby[..k] == t.standby;
      FlushAll(t, store);
    }

    /** One segment of flushStandbyList's walk: a segment of the store
        leaves the index and the standby list and is purged. */
    method FlushSegment(x: nat, store: Option<nat>)
      requires x < segments.Length
      modifies this, segments
      ensures State() == FlushOne(old(State()), x, store)
    {
      var s := segments[x];
      if s.owner.Some? && Matches(s, store) {
        index := index - {LinkOf(s)};
        DequeueFromStandbyList(x);
        EnqueueToFreeList(x);
      }
    }
  }
}
