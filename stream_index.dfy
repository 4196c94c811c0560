/** The values a server stream keeps about its segments
    (storageserver/ServerStream.cpp with the types of SimuStorTypes.h and
    simustor/Store.h): the index ranges of a stored segment, the per-index
    search trees that map a value to the segment holding it, the range
    checks done when a segment is added, and the stream statistics. */
module StreamIndex {
  import opened Wrappers
  import opened Exceptions
  import opened Decimal

  /** INVALID_LARGE_OBJECT_ID: the invalid entry index, cycle count and
      time stamp. */
  const InvalidLarge: nat := 0xFFFF_FFFF_FFFF_FFFF
  /** INVALID_STREAM_SEGMENT_ID. */
  const InvalidSqn: nat := 0xFFFF_FFFF
  const Two32: nat := 0x1_0000_0000
  const Two64: nat := 0x1_0000_0000_0000_0000

  /** QIndex, QCycleCount and QRealTime have search trees: QMaxTree + 1. */
  const TreeCount: nat := 3

  /** A range of one index type: the first and last value in a segment. */
  datatype Range = Range(start: nat, end: nat)

  const InvalidRange: Range := Range(InvalidLarge, InvalidLarge)

  /** Both ends differ from the invalid value (for uint64 values: lie
      below it). */
  predicate IsValidRange(r: Range)
  {
    r.start < InvalidLarge && r.end < InvalidLarge
  }

  /** StorageLocation: where the encoder stored a segment, with its entry
      index, cycle and time ranges. */
  datatype StorageLocation = StorageLocation(ranges: seq<Range>, compressedSize: nat, rawEntryCount: nat)

  predicate LocationOk(l: StorageLocation)
  {
    |l.ranges| == TreeCount && l.compressedSize < Two64 && l.rawEntryCount < Two32 &&
    forall i :: 0 <= i < TreeCount ==> l.ranges[i].start <= InvalidLarge && l.ranges[i].end <= InvalidLarge
  }

  /** getEntryCount: 0 without an entry index, otherwise the number of
      entries of the index range, computed in a uint32_t. */
  function EntryCount(l: StorageLocation): (n: nat)
    requires LocationOk(l)
    ensures n < Two32
    ensures l.ranges[0].start == InvalidLarge ==> n == 0
    ensures l.ranges[0].start != InvalidLarge && l.ranges[0].start <= l.ranges[0].end &&
            l.ranges[0].end - l.ranges[0].start + 1 < Two32 ==>
              n == l.ranges[0].end - l.ranges[0].start + 1
  {
    var r := l.ranges[0];
    if r.start == InvalidLarge then 0
    else (((r.end - r.start) % Two64) % Two32 + 1) % Two32
  }

  /** The text of the exception _addSegment throws when the range for
      index i fails the monotonicity check (the Exception carries i). */
  function MonotonicityMessage(e: Exception): string
    requires e.MonotonicityError?
  {
    "The specified range for index " + NatToString(e.index) + " violates monotonicity."
  }

  /** The message names the failing index: the digits between its fixed
      prefix and suffix read back as the index. */
  lemma MonotonicityMessageIndex(i: nat)
    ensures var m := MonotonicityMessage(MonotonicityError(i));
            |m| > 53 && (forall k :: 30 <= k < |m| - 23 ==> IsDigit(m[k])) &&
            DigitsValue(m[30..|m| - 23]) == i
  {
    var m := MonotonicityMessage(MonotonicityError(i));
    assert m[30..|m| - 23] == NatToString(i);
    NatToStringValue(i);
  }

  /** The monotonicity check of _addSegment for index i against the
      neighbours' ranges (absent when there is no neighbour or it is not
      yet stored). A valid range must not be reversed and must not reach a
      single-value neighbour range; a half-invalid range is made entirely
      invalid and is refused when a neighbour has a valid one. */
  function CheckRange(r: Range, prev: Option<Range>, next: Option<Range>, i: nat): (c: Result<Range, Exception>)
    requires r.start <= InvalidLarge && r.end <= InvalidLarge
    ensures c.Ok? && IsValidRange(r) ==> c.value == r && r.start <= r.end
    ensures c.Ok? && !IsValidRange(r) ==> c.value == InvalidRange
    ensures IsValidRange(r) && r.start > r.end ==> c.Err?
    ensures c.Err? ==> c.error == MonotonicityError(i)
    ensures !IsValidRange(r) ==>
              (c.Ok? <==> (prev.None? || prev.value.start == InvalidLarge) &&
                          (next.None? || next.value.start == InvalidLarge))
    ensures IsValidRange(r) && r.start <= r.end ==>
              (c.Ok? <==> !(prev.Some? && prev.value.start == prev.value.end && r.start <= prev.value.end) &&
                          !(next.Some? && next.value.start == next.value.end && r.end >= next.value.start))
  {
    if r.start != InvalidLarge && r.end != InvalidLarge then
      if r.start > r.end ||
         (prev.Some? && prev.value.start == prev.value.end && r.start <= prev.value.end) ||
         (next.Some? && next.value.start == next.value.end && r.end >= next.value.start)
      then Err(MonotonicityError(i))
      else Ok(r)
    else if (prev.Some? && prev.value.start != InvalidLarge) || (next.Some? && next.value.start != InvalidLarge)
    then Err(MonotonicityError(i))
    else Ok(InvalidRange)
  }

  /** A range after the check: valid and ordered, or entirely invalid. */
  predicate Normal(r: Range)
  {
    (IsValidRange(r) && r.start <= r.end) || r == InvalidRange
  }

  /** What the check lets through is normal. */
  lemma CheckedNormal(r: Range, prev: Option<Range>, next: Option<Range>, i: nat)
    requires r.start <= InvalidLarge && r.end <= InvalidLarge
    ensures CheckRange(r, prev, next, i).Ok? ==> Normal(CheckRange(r, prev, next, i).value)
  {
  }

  /** The stream statistics: summed sizes and counts, and per index the
      smallest start and largest end of the stored ranges. */
  datatype Stats = Stats(compressedSize: nat, entryCount: nat, rawEntryCount: nat, ranges: seq<Range>)

  /** StreamStatistics(): zero counts and invalid ranges. */
  function InitialStats(): (s: Stats)
    ensures |s.ranges| == TreeCount && s.entryCount == 0
  {
    Stats(0, 0, 0, [InvalidRange, InvalidRange, InvalidRange])
  }

  /** The statistics range widened by a stored range: a smaller start
      replaces the start; a larger end, or any end while the statistics end
      is still invalid, replaces the end. */
  function Widen(stat: Range, r: Range): (w: Range)
    requires Normal(stat) && IsValidRange(r) && r.start <= r.end
    ensures IsValidRange(w) && w.start <= w.end
    ensures w.start <= r.start && w.end >= r.end
    ensures IsValidRange(stat) ==> w.start <= stat.start && w.end >= stat.end
    ensures w.start == r.start || w.start == stat.start
    ensures w.end == r.end || w.end == stat.end
  {
    var start := if r.start < stat.start then r.start else stat.start;
    var end := if r.end > stat.end || stat.end == InvalidLarge then r.end else stat.end;
    Range(start, end)
  }

  /** The statistics range after widening by each of the ranges, in order:
      it is the tightest range covering all of them. */
  function WidenAll(stat: Range, rs: seq<Range>): Range
    requires Normal(stat) && forall k :: 0 <= k < |rs| ==> IsValidRange(rs[k]) && rs[k].start <= rs[k].end
    decreases |rs|
  {
    if |rs| == 0 then stat else WidenAll(Widen(stat, rs[0]), rs[1..])
  }

  /** Starting from the invalid range, widening by stored ranges gives a
      range that covers every one of them and whose start and end are
      those of some of them. */
  lemma {:induction false} WidenAllCovers(stat: Range, rs: seq<Range>)
    requires Normal(stat) && forall k :: 0 <= k < |rs| ==> IsValidRange(rs[k]) && rs[k].start <= rs[k].end
    ensures var w := WidenAll(stat, rs);
            Normal(w) &&
            (forall k :: 0 <= k < |rs| ==> w.start <= rs[k].start && rs[k].end <= w.end) &&
            (IsValidRange(stat) ==> w.start <= stat.start && stat.end <= w.end) &&
            (|rs| > 0 ==> IsValidRange(w)) &&
            (w.start == stat.start || exists k :: 0 <= k < |rs| && w.start == rs[k].start) &&
            (w.end == stat.end || exists k :: 0 <= k < |rs| && w.end == rs[k].end)
    decreases |rs|
  {
    if |rs| > 0 {
      var w1 := Widen(stat, rs[0]);
      WidenAllCovers(w1, rs[1..]);
      var w := WidenAll(w1, rs[1..]);
      forall k | 1 <= k < |rs|
        ensures w.start <= rs[k].start && rs[k].end <= w.end
      {
        assert rs[k] == rs[1..][k - 1];
      }
      if w.start != w1.start {
        var k :| 0 <= k < |rs[1..]| && w.start == rs[1..][k].start;
        assert w.start == rs[k + 1].start;
      }
      if w.end != w1.end {
        var k :| 0 <= k < |rs[1..]| && w.end == rs[1..][k].end;
        assert w.end == rs[k + 1].end;
      }
    }
  }

  /** One entry of a search tree: a range inserted into the tree and the
      sequence number of the segment whose storage location holds it. */
  datatype TreeEntry = TreeEntry(start: nat, end: nat, sqn: nat)

  /** The tree is a set ordered by range start: strictly increasing
      starts. */
  predicate Sorted(t: seq<TreeEntry>)
  {
    forall i, j :: 0 <= i < j < |t| ==> t[i].start < t[j].start
  }

  /** lower_bound: the first position whose start is not below the
      value. */
  function LowerBound(t: seq<TreeEntry>, value: nat): (k: nat)
    ensures k <= |t|
    ensures forall i :: 0 <= i < k ==> t[i].start < value
    ensures k < |t| ==> t[k].start >= value
  {
    if |t| == 0 || t[0].start >= value then 0 else 1 + LowerBound(t[1..], value)
  }

  /** std::set::insert with the start as key: a range whose start is
      already present is not inserted. */
  function Insert(t: seq<TreeEntry>, e: TreeEntry): (r: seq<TreeEntry>)
    requires Sorted(t)
    ensures Sorted(r)
    ensures (exists i :: 0 <= i < |t| && t[i].start == e.start) ==> r == t
    ensures !(exists i :: 0 <= i < |t| && t[i].start == e.start) ==>
              |r| == |t| + 1 && e in r && forall x :: x in t ==> x in r
    ensures forall x :: x in r ==> x in t || x == e
  {
    var k := LowerBound(t, e.start);
    if k < |t| && t[k].start == e.start then t
    else
      InsertAt(t, k, e);
      t[..k] + [e] + t[k..]
  }

  /** The entry placed at its lower bound keeps the order and every entry. */
  lemma InsertAt(t: seq<TreeEntry>, k: nat, e: TreeEntry)
    requires Sorted(t) && k <= |t|
    requires forall i :: 0 <= i < k ==> t[i].start < e.start
    requires k < |t| ==> t[k].start > e.start
    ensures Sorted(t[..k] + [e] + t[k..])
    ensures forall x :: x in t ==> x in t[..k] + [e] + t[k..]
    ensures forall x :: x in t[..k] + [e] + t[k..] ==> x in t || x == e
  {
    var r := t[..k] + [e] + t[k..];
    assert forall i :: 0 <= i < |r| ==> r[i] == (if i < k then t[i] else if i == k then e else t[i - 1]);
    forall x | x in t ensures x in r {
      var i :| 0 <= i < |t| && t[i] == x;
      if i < k { assert r[i] == x; } else { assert r[i + 1] == x; }
    }
  }

  /** _findSequenceNumber on a tree: the segment whose range starts at the
      value, else the one before it if the value lies within its range,
      else the invalid sequence number. */
  function Find(t: seq<TreeEntry>, value: nat): (sqn: nat)
    requires Sorted(t)
    ensures sqn != InvalidSqn ==> exists i :: 0 <= i < |t| && t[i].sqn == sqn
  {
    var k := LowerBound(t, value);
    if k < |t| && t[k].start == value then t[k].sqn
    else if k > 0 && value <= t[k - 1].end then t[k - 1].sqn
    else InvalidSqn
  }

  /** The ranges in a tree do not overlap and are ordered; the check in
      _addSegment only enforces this against single-value neighbours. */
  predicate Disjoint(t: seq<TreeEntry>)
  {
    (forall i :: 0 <= i < |t| ==> t[i].start <= t[i].end) &&
    forall i, j :: 0 <= i < j < |t| ==> t[i].end < t[j].start
  }

  predicate Holds(e: TreeEntry, value: nat)
  {
    e.start <= value <= e.end
  }

  /** With disjoint ranges, the lookup finds the segment of the range that
      holds the value exactly when one does, and the invalid sequence
      number when none does (segments numbered below the invalid one). */
  lemma FindHolding(t: seq<TreeEntry>, value: nat)
    requires Sorted(t) && Disjoint(t)
    requires forall i :: 0 <= i < |t| ==> t[i].sqn < InvalidSqn
    ensures (exists i :: 0 <= i < |t| && Holds(t[i], value)) ==>
              exists i :: 0 <= i < |t| && Holds(t[i], value) && Find(t, value) == t[i].sqn
    ensures (forall i :: 0 <= i < |t| ==> !Holds(t[i], value)) <==> Find(t, value) == InvalidSqn
  {
    var k := LowerBound(t, value);
    if exists i :: 0 <= i < |t| && Holds(t[i], value) {
      var i :| 0 <= i < |t| && Holds(t[i], value);
      if k < |t| && t[k].start == value {
        assert Holds(t[k], value);
      } else {
        assert i == k - 1;
      }
    }
  }

  /** Inserting a range keeps the entries found before: a lookup that hit
      a range still hits a range holding the value. */
  lemma InsertKeeps(t: seq<TreeEntry>, e: TreeEntry, value: nat)
    requires Sorted(t) && Disjoint(t) && Disjoint(Insert(t, e))
    requires forall i :: 0 <= i < |t| ==> t[i].sqn < InvalidSqn
    requires e.sqn < InvalidSqn
    requires exists i :: 0 <= i < |t| && Holds(t[i], value)
    ensures Find(Insert(t, e), value) != InvalidSqn
  {
    var r := Insert(t, e);
    var i :| 0 <= i < |t| && Holds(t[i], value);
    assert t[i] in r;
    var j :| 0 <= j < |r| && r[j] == t[i];
    forall m | 0 <= m < |r| ensures r[m].sqn < InvalidSqn {
      assert r[m] in r;
      if r[m] != e {
        var q :| 0 <= q < |t| && t[q] == r[m];
      }
    }
    FindHolding(r, value);
  }

  /** The reference counts a segment location keeps per session
      (referenceMap): the total of the counts. */
  ghost function RefSum(m: map<nat, nat>): nat
    decreases |m|
  {
    if |m| == 0 then 0 else var k := AnyKey(m); m[k] + RefSum(m - {k})
  }

  ghost function AnyKey(m: map<nat, nat>): (k: nat)
    requires |m| > 0
    ensures k in m
  {
    var k :| k in m; k
  }

  /** The total splits off any one session's count. */
  lemma {:induction false} RefSumRemove(m: map<nat, nat>, k: nat)
    requires k in m
    ensures RefSum(m) == m[k] + RefSum(m - {k})
    decreases |m|
  {
    var j := AnyKey(m);
    if j != k {
      RefSumRemove(m - {j}, k);
      RefSumRemove(m - {k}, j);
      assert m - {j} - {k} == m - {k} - {j};
    }
  }

  /** Changing one session's count changes the total by the difference. */
  lemma RefSumUpdate(m: map<nat, nat>, k: nat, v: nat)
    requires k in m
    ensures RefSum(m[k := v]) == RefSum(m) - m[k] + v
  {
    RefSumRemove(m, k);
    RefSumRemove(m[k := v], k);
    assert m[k := v] - {k} == m - {k};
  }
}
