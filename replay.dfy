/** The replay engine of the memory replay sample
    (samples/csharp.memreplay/Replay.cs): the Running / Suspend / Done
    control state, one pass of the replay loop that takes the next entry
    of the multiplexer and hands it to the apply method of its stream, and
    the handlers for memory writes and CR3 switches.

    The multiplexer merges up to three input streams: the memory write
    stream, the screen stream when the screen streams were found, and the
    page directory stream when it was found, in this order. An entry names
    its input by position in that list. */
module Replaying {
  import opened Wrappers
  import opened Exceptions
  import opened RamMapping
  import opened Bytes

  const Two16: nat := 0x1_0000
  const Two32: nat := 0x1_0000_0000
  const Two48: nat := 0x1_0000_0000_0000

  datatype ReplayState = Running | Suspend | Done

  /** The replay thread: not started yet, alive, or finished (a .NET
      thread cannot be started twice). */
  datatype ThreadStatus = NotStarted | Alive | Finished

  /** The slots of the replay's stream collection, in the order of the
      Streams enumeration: Write = 0, Screen, Cr3, ScreenData,
      Multiplexer. */
  datatype Streams = Write | Screen | Cr3 | ScreenData | Multiplexer

  function StreamAt(i: nat): (s: Streams)
    requires i < 5
  {
    [Write, Screen, Cr3, ScreenData, Multiplexer][i]
  }

  /** The entry an input stream delivers: a 64-bit data memory access (its
      metadata word holds the cycle count in the low 48 bits and the flags
      in the high 16 bits; its data word holds the access size in the high
      32 bits unless the access is a full 64-bit one), a screen dump, or a
      page directory switch. */
  datatype Payload =
    | MemoryWrite(metadata: nat, ip: nat, address: nat, data64: nat)
    | ScreenDump(width: nat, height: nat, reference: nat)
    | Cr3Switch(cycleCount: nat, cr3: nat)

  /** An entry of the multiplexer: its cycle count, the position of its
      input stream and the entry itself. */
  datatype MultiplexerEntry = MultiplexerEntry(cycleCount: nat, streamIdx: nat, payload: Payload)

  /** The flags of the access: the ushort at byte offset 6 of the metadata. */
  function Flags(w: Payload): (f: nat)
    requires w.MemoryWrite?
    ensures f < Two16
  {
    w.metadata / Two48 % Two16
  }

  /** _applyWrite's size code: 3 when flag bit 0 marks a full 64-bit
      access, otherwise the uint at byte offset 4 of the data word. */
  function SizeCode(w: Payload): (code: nat)
    requires w.MemoryWrite?
    ensures code < Two32
  {
    if Flags(w) % 2 == 1 then 3 else w.data64 / Two32 % Two32
  }

  /** The input streams of the multiplexer, in the order they are
      registered. */
  function Inputs(hasScreen: bool, hasCr3: bool): (ins: seq<Streams>)
    ensures 1 <= |ins| <= 3 && ins[0] == Write
  {
    [Write] + (if hasScreen then [Screen] else []) + (if hasCr3 then [Cr3] else [])
  }

  /** The slots that hold a stream with an apply method: the write stream
      always, the screen and page directory streams when found. The
      screen data and multiplexer streams have none. */
  predicate Applies(hasScreen: bool, hasCr3: bool, s: Streams)
  {
    s == Write || (s == Screen && hasScreen) || (s == Cr3 && hasCr3)
  }

  /** The slot _doReplay hands an entry to, as written: the input position
      is used as slot number. A position past the collection throws
      IndexOutOfRangeException, an empty slot or a stream without apply
      method NullReferenceException. */
  function DispatchAsWritten(hasScreen: bool, hasCr3: bool, idx: nat): (r: Result<Streams, Exception>)
  {
    if idx >= 5 then Err(IndexOutOfRange)
    else if Applies(hasScreen, hasCr3, StreamAt(idx)) then Ok(StreamAt(idx))
    else Err(NullReference)
  }

  /** The slot the entry is evidently meant for: the stream registered at
      its input position. */
  function Dispatch(hasScreen: bool, hasCr3: bool, idx: nat): (r: Result<Streams, Exception>)
  {
    if idx < |Inputs(hasScreen, hasCr3)| then Ok(Inputs(hasScreen, hasCr3)[idx]) else Err(IndexOutOfRange)
  }

  /** Using the input position as slot number reaches the right stream
      exactly for the write stream and whenever the screen streams were
      found; without them the page directory stream is input 1, and its
      entries land in the empty screen slot. */
  lemma DispatchAsWrittenMisses(hasScreen: bool, hasCr3: bool, idx: nat)
    requires idx < |Inputs(hasScreen, hasCr3)|
    ensures DispatchAsWritten(hasScreen, hasCr3, idx) == Dispatch(hasScreen, hasCr3, idx) <==> idx == 0 || hasScreen
    ensures !(idx == 0 || hasScreen) ==>
              Inputs(hasScreen, hasCr3)[idx] == Cr3 && DispatchAsWritten(hasScreen, hasCr3, idx) == Err(NullReference)
  {
  }

  /** Every stream with an apply method receives the entries of exactly
      one input position, and every input position reaches such a
      stream. */
  lemma DispatchIsBijective(hasScreen: bool, hasCr3: bool)
    ensures forall idx :: 0 <= idx < |Inputs(hasScreen, hasCr3)| ==>
              Dispatch(hasScreen, hasCr3, idx).Ok? && Applies(hasScreen, hasCr3, Dispatch(hasScreen, hasCr3, idx).value)
    ensures forall s :: Applies(hasScreen, hasCr3, s) ==>
              exists idx :: 0 <= idx < |Inputs(hasScreen, hasCr3)| && Dispatch(hasScreen, hasCr3, idx) == Ok(s)
    ensures forall i, j :: 0 <= i < j < |Inputs(hasScreen, hasCr3)| ==>
              Dispatch(hasScreen, hasCr3, i) != Dispatch(hasScreen, hasCr3, j)
  {
    var ins := Inputs(hasScreen, hasCr3);
    forall s | Applies(hasScreen, hasCr3, s)
      ensures exists idx :: 0 <= idx < |ins| && Dispatch(hasScreen, hasCr3, idx) == Ok(s)
    {
      if s == Screen {
        assert Dispatch(hasScreen, hasCr3, 1) == Ok(s);
      } else if s == Cr3 {
        assert Dispatch(hasScreen, hasCr3, |ins| - 1) == Ok(s);
      } else {
        assert Dispatch(hasScreen, hasCr3, 0) == Ok(s);
      }
    }
  }

  /** The entries a stream delivers have the layout its apply method
      reads. */
  predicate Matches(s: Streams, p: Payload)
  {
    (s == Write && p.MemoryWrite?) || (s == Screen && p.ScreenDump?) || (s == Cr3 && p.Cr3Switch?)
  }

  /** An entry as the multiplexer delivers it: from one of its inputs, of
      that input's layout, with 64-bit fields. */
  predicate Consistent(hasScreen: bool, hasCr3: bool, e: MultiplexerEntry)
  {
    e.streamIdx < |Inputs(hasScreen, hasCr3)| && Matches(Inputs(hasScreen, hasCr3)[e.streamIdx], e.payload) &&
    (e.payload.MemoryWrite? ==>
       e.payload.metadata < Ulong && e.payload.address < Ulong && e.payload.data64 < Ulong)
  }

  /** What _applyWrite does with the access w: the RAM map applies it as
      a write with w's size code, and then the counter of that size code
      grows by one; a size code past the counters throws
      IndexOutOfRangeException (reachable when the access was dropped as
      out of bounds). */
  twostate predicate WriteApplied(ram: RamMap, numWrites: array<nat>, cycle: nat, w: Payload, new r: Result<(), Exception>)
    requires w.MemoryWrite?
    reads ram, ram.frames, ram.ram, numWrites
  {
    var code := SizeCode(w);
    var o := AccessOutcome(old(ram.frames[..]), old(ram.ram[..]), ram.capture, ram.size, old(ram.index) + 1,
                           w.address, w.data64, code, false);
    ram.frames[..] == o.0 && ram.ram[..] == o.1 && ram.index == old(ram.index) + 1 && ram.cycle == cycle &&
    if o.2.Err? then r == o.2 && numWrites[..] == old(numWrites[..])
    else if code >= numWrites.Length then r == Err(IndexOutOfRange) && numWrites[..] == old(numWrites[..])
    else r == Ok(()) && numWrites[..] == old(numWrites[..])[code := old(numWrites[..])[code] + 1]
  }

  /** The number of page directory switches among the entries. */
  function Cr3Count(es: seq<MultiplexerEntry>): (n: nat)
    ensures n <= |es|
  {
    if |es| == 0 then 0
    else Cr3Count(es[..|es| - 1]) + (if es[|es| - 1].payload.Cr3Switch? then 1 else 0)
  }

  /** The number of memory writes among the entries. */
  function WriteCount(es: seq<MultiplexerEntry>): (n: nat)
    ensures n <= |es|
  {
    if |es| == 0 then 0
    else WriteCount(es[..|es| - 1]) + (if es[|es| - 1].payload.MemoryWrite? then 1 else 0)
  }

  /** The page directory after the entries: the one of the last switch
      among them, or cr3 when there is none. */
  function Cr3After(cr3: nat, es: seq<MultiplexerEntry>): (c: nat)
    ensures c == cr3 || exists i :: 0 <= i < |es| && es[i].payload.Cr3Switch? && c == es[i].payload.cr3
  {
    if |es| == 0 then cr3
    else if es[|es| - 1].payload.Cr3Switch? then es[|es| - 1].payload.cr3
    else Cr3After(cr3, es[..|es| - 1])
  }

  /** What the replay has made of its RAM map and its write counters: the
      frame table, the RAM image, the access index of the map and the
      writes per size code. */
  datatype Machine = Machine(frames: seq<FrameMetadata>, image: seq<byte>, accesses: nat, writes: seq<nat>)

  /** The machine after the apply method of one entry (see WriteApplied):
      a memory write is one access of the RAM map and, when it completes
      with a counted size code, one more write of that size; the other
      entries leave the machine alone. */
  function ApplyEntry(capture: bool, size: nat, m: Machine, e: MultiplexerEntry): (m': Machine)
    ensures |m'.frames| == |m.frames| && |m'.image| == |m.image| && |m'.writes| == |m.writes|
    ensures m'.accesses == m.accesses + (if e.payload.MemoryWrite? then 1 else 0)
    ensures !e.payload.MemoryWrite? ==> m' == m
  {
    if !e.payload.MemoryWrite? then m
    else
      var code := SizeCode(e.payload);
      var o := AccessOutcome(m.frames, m.image, capture, size, m.accesses + 1,
                             e.payload.address, e.payload.data64, code, false);
      Machine(o.0, o.1, m.accesses + 1,
              if o.2.Ok? && code < |m.writes| then m.writes[code := m.writes[code] + 1] else m.writes)
  }

  /** The machine after the entries, applied in order. Every memory write
      among them is one access of the RAM map, and the table, the image
      and the counters keep their sizes. */
  function Replayed(capture: bool, size: nat, m: Machine, es: seq<MultiplexerEntry>): (m': Machine)
    ensures |m'.frames| == |m.frames| && |m'.image| == |m.image| && |m'.writes| == |m.writes|
    ensures m'.accesses == m.accesses + WriteCount(es)
  {
    if |es| == 0 then m
    else ApplyEntry(capture, size, Replayed(capture, size, m, es[..|es| - 1]), es[|es| - 1])
  }

  /** One more entry of a feed, as the three folds over its prefixes see
      it. */
  lemma PrefixFolds(capture: bool, size: nat, m: Machine, cr3: nat, feed: seq<MultiplexerEntry>, k: nat)
    requires k < |feed|
    ensures Cr3Count(feed[..k + 1]) == Cr3Count(feed[..k]) + (if feed[k].payload.Cr3Switch? then 1 else 0)
    ensures Cr3After(cr3, feed[..k + 1]) == if feed[k].payload.Cr3Switch? then feed[k].payload.cr3 else Cr3After(cr3, feed[..k])
    ensures Replayed(capture, size, m, feed[..k + 1]) == ApplyEntry(capture, size, Replayed(capture, size, m, feed[..k]), feed[k])
  {
    assert feed[..k + 1][..k] == feed[..k];
  }

  /** Replaying the entries in two runs, the second from where the first
      left the machine, is replaying them in one. */
  lemma {:induction false} ReplayedSplits(capture: bool, size: nat, m: Machine, a: seq<MultiplexerEntry>,
                                          b: seq<MultiplexerEntry>)
    ensures Replayed(capture, size, m, a + b) == Replayed(capture, size, Replayed(capture, size, m, a), b)
  {
    if |b| > 0 {
      assert (a + b)[..|a + b| - 1] == a + b[..|b| - 1];
      ReplayedSplits(capture, size, m, a, b[..|b| - 1]);
    } else {
      assert a + b == a;
    }
  }

  /** Entries without a memory write leave the machine as it was. */
  lemma {:induction false} ReplayedWithoutWrites(capture: bool, size: nat, m: Machine, es: seq<MultiplexerEntry>)
    requires forall i :: 0 <= i < |es| ==> !es[i].payload.MemoryWrite?
    ensures Replayed(capture, size, m, es) == m
  {
    if |es| > 0 {
      ReplayedWithoutWrites(capture, size, m, es[..|es| - 1]);
    }
  }

  class Replay {
    const ram: RamMap
    /** Whether the screen streams and the page directory stream were
        found when the replay was opened. */
    const hasScreen: bool
    const hasCr3: bool
    var state: ReplayState
    var singleStep: bool
    var thread: ThreadStatus
    var index: nat
    var cycle: nat
    var cr3: nat
    /** Writes per size code. */
    const numWrites: array<nat>
    var numCr3Switches: nat

    ghost predicate Valid()
      reads ram, ram.frames
    {
      ram.Valid() && ram.capture && numWrites.Length == 4
    }

    /** The replay's RAM map and write counters as a Machine. */
    ghost function Snapshot(): (m: Machine)
      reads ram, ram.frames, ram.ram, numWrites
      ensures |m.frames| == ram.frames.Length && |m.writes| == numWrites.Length && m.accesses == ram.index
    {
      Machine(ram.frames[..], ram.ram[..], ram.index, numWrites[..])
    }

    /** A new replay is suspended, its thread not started, its counters
        zero, over a captured RAM map of ramSizeInMiB MiB. */
    constructor (ramSizeInMiB: nat, hasScreen: bool, hasCr3: bool)
      requires ramSizeInMiB < Two32
      ensures Valid() && state == ReplayState.Suspend && !singleStep && thread == NotStarted
      ensures this.hasScreen == hasScreen && this.hasCr3 == hasCr3
      ensures index == 0 && cycle == 0 && cr3 == 0 && numCr3Switches == 0 && numWrites[..] == [0, 0, 0, 0]
      ensures ram.size == ramSizeInMiB * 0x10_0000 && ram.index == 0
      ensures fresh(ram) && fresh(ram.frames) && fresh(ram.ram) && fresh(numWrites)
    {
      this.hasScreen := hasScreen;
      this.hasCr3 := hasCr3;
      state := ReplayState.Suspend;
      singleStep := false;
      thread := NotStarted;
      index := 0;
      cycle := 0;
      cr3 := 0;
      numCr3Switches := 0;
      numWrites := new nat[4](_ => 0);
      ram := new RamMap(ramSizeInMiB * 0x10_0000, true);
    }

    /** _start: a finished replay cannot be restarted; otherwise the replay
        runs, in single steps or not, and its thread is started when it is
        not alive. Starting a thread that has already finished throws
        ThreadStateException, after the state has been set. */
    method Begin(single: bool) returns (r: Result<(), Exception>)
      modifies this
      ensures old(state) == Done ==>
                r == Err(InvalidOperation) && state == Done && singleStep == old(singleStep) && thread == old(thread)
      ensures old(state) != Done ==> state == Running && singleStep == single
      ensures old(state) != Done && old(thread) == Finished ==> r == Err(ThreadState) && thread == Finished
      ensures old(state) != Done && old(thread) != Finished ==> r == Ok(()) && thread == Alive
      ensures index == old(index) && cycle == old(cycle) && cr3 == old(cr3) &&
              numCr3Switches == old(numCr3Switches)
    {
      if state == Done {
        return Err(InvalidOperation);
      }
      state := Running;
      singleStep := single;
      if thread != Alive {
        if thread == Finished {
          return Err(ThreadState);
        }
        thread := Alive;
      }
      r := Ok(());
    }

    method Start() returns (r: Result<(), Exception>)
      modifies this
      ensures old(state) == Done ==> r == Err(InvalidOperation) && state == Done && singleStep == old(singleStep)
      ensures old(state) != Done ==> state == Running && !singleStep
      ensures old(state) != Done ==> (r.Ok? <==> old(thread) != Finished) && (r.Ok? ==> thread == Alive)
      ensures index == old(index) && cycle == old(cycle)
    {
      r := Begin(false);
    }

    method SingleStep() returns (r: Result<(), Exception>)
      modifies this
      ensures old(state) == Done ==> r == Err(InvalidOperation) && state == Done && singleStep == old(singleStep)
      ensures old(state) != Done ==> state == Running && singleStep
      ensures old(state) != Done ==> (r.Ok? <==> old(thread) != Finished) && (r.Ok? ==> thread == Alive)
      ensures index == old(index) && cycle == old(cycle)
    {
      r := Begin(true);
    }

    /** Stop ends the replay from any state. */
    method Stop()
      modifies this
      ensures state == Done && singleStep == old(singleStep) && thread == old(thread)
      ensures index == old(index) && cycle == old(cycle)
    {
      state := Done;
    }

    /** Suspend pauses a replay whose thread runs; a finished replay or one
        whose thread is not running cannot be suspended. */
    method Suspend() returns (r: Result<(), Exception>)
      modifies this
      ensures old(state) == Done || old(thread) != Alive ==> r == Err(InvalidOperation) && state == old(state)
      ensures old(state) != Done && old(thread) == Alive ==> r == Ok(()) && state == ReplayState.Suspend
      ensures singleStep == old(singleStep) && thread == old(thread)
      ensures index == old(index) && cycle == old(cycle)
    {
      if state == Done || thread != Alive {
        return Err(InvalidOperation);
      }
      state := ReplayState.Suspend;
      r := Ok(());
    }

    /** _applyWrite. */
    method ApplyWrite(cycle: nat, w: Payload) returns (r: Result<(), Exception>)
      requires Valid() && w.MemoryWrite? && w.address < Ulong && w.data64 < Ulong
      modifies ram, ram.frames, ram.ram, numWrites
      ensures Valid() && ram.frames == old(ram.frames) && ram.ram == old(ram.ram)
      ensures WriteApplied(ram, numWrites, cycle, w, r)
    {
      var size := SizeCode(w);
      r := ram.ApplyMemoryAccess(cycle, w.address, w.data64, size, false);
      if r.Err? {
        return;
      }
      if size >= numWrites.Length {
        return Err(IndexOutOfRange);
      }
      numWrites[size] := numWrites[size] + 1;
    }

    /** _applyCr3: the page directory becomes the entry's and the switch is
        counted. */
    method ApplyCr3(c: Payload)
      requires c.Cr3Switch?
      modifies this
      ensures cr3 == c.cr3 && numCr3Switches == old(numCr3Switches) + 1
      ensures state == old(state) && singleStep == old(singleStep) && thread == old(thread)
      ensures index == old(index) && cycle == old(cycle)
    {
      cr3 := c.cr3;
      numCr3Switches := numCr3Switches + 1;
    }

    /** The entry handed to the apply method of the stream registered at
        its input position; a write is stamped with the entry's cycle
        count, which _doReplay has just made the replay's. The screen stream's apply method is not part of
        this model and changes nothing here. */
    method Apply(e: MultiplexerEntry) returns (r: Result<(), Exception>)
      requires Valid() && Consistent(hasScreen, hasCr3, e)
      modifies this, numWrites, ram, ram.frames, ram.ram
      ensures Valid() && ram.frames == old(ram.frames) && ram.ram == old(ram.ram)
      ensures state == old(state) && singleStep == old(singleStep) && thread == old(thread)
      ensures index == old(index) && cycle == old(cycle)
      ensures Snapshot() == ApplyEntry(ram.capture, ram.size, old(Snapshot()), e)
      ensures e.payload.Cr3Switch? ==>
                r == Ok(()) && cr3 == e.payload.cr3 && numCr3Switches == old(numCr3Switches) + 1 &&
                unchanged(numWrites, ram, ram.frames, ram.ram)
      ensures e.payload.ScreenDump? ==>
                r == Ok(()) && cr3 == old(cr3) && numCr3Switches == old(numCr3Switches) &&
                unchanged(numWrites, ram, ram.frames, ram.ram)
      ensures e.payload.MemoryWrite? ==>
                cr3 == old(cr3) && numCr3Switches == old(numCr3Switches) && WriteApplied(ram, numWrites, e.cycleCount, e.payload, r)
    {
      var target := Dispatch(hasScreen, hasCr3, e.streamIdx);
      match target.value {
        case Write =>
          r := ApplyWrite(e.cycleCount, e.payload);
        case Cr3 =>
          ApplyCr3(e.payload);
          r := Ok(());
        case _ =>
          r := Ok(());
      }
    }

    /** One pass of the replay loop of _doReplay on an entry of the
        multiplexer: the entry's cycle count becomes the replay's, the index
        grows by one and the entry is applied (see Apply); after a single
        step the replay is suspended again. An exception out of the apply
        method ends the replay thread. */
    method Step(e: MultiplexerEntry) returns (r: Result<(), Exception>)
      requires Valid() && state == Running && Consistent(hasScreen, hasCr3, e)
      modifies this, numWrites, ram, ram.frames, ram.ram
      ensures Valid() && ram.frames == old(ram.frames) && ram.ram == old(ram.ram)
      ensures cycle == e.cycleCount && index == old(index) + 1
      ensures numCr3Switches == old(numCr3Switches) + (if e.payload.Cr3Switch? then 1 else 0)
      ensures r.Ok? ==> state == (if old(singleStep) then ReplayState.Suspend else Running) && !singleStep &&
                        thread == old(thread)
      ensures r.Err? ==> e.payload.MemoryWrite? && state == Running && thread == Finished && singleStep == old(singleStep)
      ensures e.payload.MemoryWrite? ==> WriteApplied(ram, numWrites, e.cycleCount, e.payload, r)
      ensures cr3 == (if e.payload.Cr3Switch? then e.payload.cr3 else old(cr3))
      ensures Snapshot() == ApplyEntry(ram.capture, ram.size, old(Snapshot()), e)
    {
      cycle := e.cycleCount;
      index := index + 1;
      r := Apply(e);
      if r.Err? {
        thread := Finished;
        return;
      }
      if singleStep {
        state := ReplayState.Suspend;
        singleStep := false;
      }
    }

    /** One pass of the replay loop as _doReplay is written: the input
        position picks the slot of the stream collection (see
        DispatchAsWritten). An entry that reaches an empty slot throws
        NullReferenceException out of the replay thread; any other entry
        reaches the stream Step hands it to. */
    method StepAsWritten(e: MultiplexerEntry) returns (r: Result<(), Exception>)
      requires Valid() && state == Running && Consistent(hasScreen, hasCr3, e)
      modifies this, numWrites, ram, ram.frames, ram.ram
      ensures Valid() && ram.frames == old(ram.frames) && ram.ram == old(ram.ram)
      ensures cycle == e.cycleCount && index == old(index) + 1
      ensures DispatchAsWritten(hasScreen, hasCr3, e.streamIdx).Err? ==>
                r == Err(NullReference) && state == Running && thread == Finished &&
                numCr3Switches == old(numCr3Switches) && unchanged(numWrites, ram, ram.frames, ram.ram)
      ensures DispatchAsWritten(hasScreen, hasCr3, e.streamIdx).Ok? ==>
                numCr3Switches == old(numCr3Switches) + (if e.payload.Cr3Switch? then 1 else 0) &&
                (r.Err? ==> e.payload.MemoryWrite? && thread == Finished)
    {
      DispatchAsWrittenMisses(hasScreen, hasCr3, e.streamIdx);
      if DispatchAsWritten(hasScreen, hasCr3, e.streamIdx).Err? {
        cycle := e.cycleCount;
        index := index + 1;
        thread := Finished;
        return Err(NullReference);
      }
      r := Step(e);
    }

    /** The replay loop of _doReplay while the replay runs, on the entries
        the multiplexer has left, one Step per entry; when the multiplexer
        has no entry left the replay and its thread end. It returns how many entries it
        applied: all of them, or exactly one in single-step mode. */
    method Run(feed: seq<MultiplexerEntry>) returns (consumed: nat, r: Result<(), Exception>)
      requires Valid() && state == Running
      requires forall i :: 0 <= i < |feed| ==> Consistent(hasScreen, hasCr3, feed[i])
      modifies this, numWrites, ram, ram.frames, ram.ram
      ensures Valid() && consumed <= |feed|
      ensures r.Ok? ==> index == old(index) + consumed
      ensures r.Ok? && !old(singleStep) ==> state == Done && thread == Finished && consumed == |feed|
      ensures r.Ok? && old(singleStep) ==>
                (|feed| > 0 ==> state == ReplayState.Suspend && consumed == 1) && (|feed| == 0 ==> state == Done && thread == Finished)
      ensures r.Err? ==> consumed < |feed| && state == Running && thread == Finished && index == old(index) + consumed + 1
      ensures numCr3Switches == old(numCr3Switches) + Cr3Count(feed[..consumed])
      ensures r.Ok? && consumed > 0 ==> cycle == feed[consumed - 1].cycleCount
      ensures r.Ok? ==> cr3 == Cr3After(old(cr3), feed[..consumed]) &&
                        Snapshot() == Replayed(ram.capture, ram.size, old(Snapshot()), feed[..consumed])
      ensures r.Err? ==> cr3 == Cr3After(old(cr3), feed[..consumed]) &&
                         Snapshot() == Replayed(ram.capture, ram.size, old(Snapshot()), feed[..consumed + 1])
    {
      consumed := 0;
      r := Ok(());
      ghost var start, c0 := Snapshot(), cr3;
      while consumed < |feed| && state == Running
        invariant Valid() && ram.frames == old(ram.frames) && ram.ram == old(ram.ram)
        invariant r.Ok? && consumed <= |feed| && index == old(index) + consumed
        invariant state == Running ==> singleStep == old(singleStep) && (old(singleStep) ==> consumed == 0)
        invariant state == Running || (state == ReplayState.Suspend && old(singleStep) && consumed == 1)
        invariant numCr3Switches == old(numCr3Switches) + Cr3Count(feed[..consumed])
        invariant consumed > 0 ==> cycle == feed[consumed - 1].cycleCount
        invariant cr3 == Cr3After(c0, feed[..consumed])
        invariant Snapshot() == Replayed(ram.capture, ram.size, start, feed[..consumed])
      {
        PrefixFolds(ram.capture, ram.size, start, c0, feed, consumed);
        ghost var before := Snapshot();
        r := Step(feed[consumed]);
        assert Snapshot() == ApplyEntry(ram.capture, ram.size, before, feed[consumed]);
        if r.Err? {
          return;
        }
        consumed := consumed + 1;
      }
      // The multiplexer has no entry left: the replay is done.
      if state == Running {
        state := Done;
        thread := Finished;
      }
    }
  }

  /** Without the screen streams, the first page directory switch is input
      1 of the multiplexer; _doReplay hands it to the empty screen slot
      and fails with NullReferenceException, where the stream registered
      at input 1 applies it. */
  lemma Cr3WithoutScreen()
    ensures Consistent(false, true, MultiplexerEntry(100, 1, Cr3Switch(100, 0x1000)))
    ensures DispatchAsWritten(false, true, 1) == Err(NullReference)
    ensures Dispatch(false, true, 1) == Ok(Cr3)
  {
  }
}
