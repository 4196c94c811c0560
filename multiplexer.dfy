/** The stream multiplexer of libsimutraceX (libsimutraceX/StreamMultiplexer.cpp):
    a dynamic stream that merges two or more input streams, either round
    robin or by cycle count. An input stream is modelled by its type and the
    first 8 bytes of each of its entries, read as a 64-bit number, in the
    order the stream handle delivers them. The per-input contexts (stream
    handle and current entry) are the sequences `read` and `cycles` of a
    handle, and the context list holds indices into them where the source
    holds pointers. */
module Multiplexing {
  import opened Wrappers
  import opened Exceptions

  const Two48: nat := 0x1_0000_0000_0000
  /** INVALID_CYCLE_COUNT, the all-ones 64-bit value. */
  const InvalidCycleCount: nat := 0xFFFF_FFFF_FFFF_FFFF

  const NotTemporalMessage := "Cannot use cyclecount-based multiplexing for streams that are not temporally ordered."
  const DifferentTypesMessage := "The input streams posses different types. To build a multiplexer from this set of streams you must specify the MxfIndirect flag."

  datatype Rule = RoundRobin | CycleCount

  /** A stream type descriptor; two descriptors are compared as a whole. */
  datatype StreamType = StreamType(id: nat, temporal: bool)

  datatype Input = Input(streamType: StreamType, entries: seq<nat>)

  /** A registered multiplexer: its rule, whether it outputs indirect
      MultiplexerEntry records, whether its output type is temporally
      ordered, and its inputs. */
  datatype Config = Config(rule: Rule, indirect: bool, temporal: bool, inputs: seq<Input>)

  /** An entry handed out: its cycle count, the index of its input stream
      and its position in that stream. */
  datatype Entry = Entry(cycleCount: nat, streamIdx: nat, position: nat)

  predicate SameType(inputs: seq<Input>)
  {
    forall i :: 0 <= i < |inputs| ==> inputs[i].streamType == inputs[0].streamType
  }

  predicate AllTemporal(inputs: seq<Input>)
  {
    forall i :: 0 <= i < |inputs| ==> inputs[i].streamType.temporal
  }

  /** HandleStreamContext::update: the cycle count of an entry of a
      temporally ordered stream is its first 8 bytes cut to 48 bits. */
  function CycleOf(word: nat, temporal: bool): (c: nat)
    ensures temporal ==> c < Two48 && (word - c) % Two48 == 0
    ensures temporal && word < Two48 ==> c == word
    ensures !temporal ==> c == InvalidCycleCount
  {
    if temporal then word % Two48 else InvalidCycleCount
  }

  /** The constructor together with _inferType and _getNextEntryHandler:
      fewer than two inputs are refused, the cycle-count rule needs
      temporally ordered inputs, and inputs of different types need the
      indirect flag. */
  method Create(rule: Rule, indirect: bool, inputs: seq<Input>) returns (r: Result<Config, Exception>)
    ensures |inputs| < 2 ==> r == Err(Argument)
    ensures |inputs| >= 2 && rule == CycleCount && !AllTemporal(inputs) ==> r == Err(Failure(NotTemporalMessage))
    ensures |inputs| >= 2 && (rule == RoundRobin || AllTemporal(inputs)) && !SameType(inputs) && !indirect ==>
              r == Err(Failure(DifferentTypesMessage))
    ensures r.Ok? <==> |inputs| >= 2 && (rule == RoundRobin || AllTemporal(inputs)) && (SameType(inputs) || indirect)
    ensures r.Ok? ==> r.value == Config(rule, indirect || !SameType(inputs), AllTemporal(inputs), inputs)
  {
    if |inputs| < 2 {
      return Err(Argument);
    }
    var sameType := true;
    var temporal := true;
    var i := 0;
    while i < |inputs|
      invariant 0 <= i <= |inputs|
      invariant sameType <==> forall k :: 0 <= k < i ==> inputs[k].streamType == inputs[0].streamType
      invariant temporal <==> forall k :: 0 <= k < i ==> inputs[k].streamType.temporal
    {
      if i > 0 && inputs[i].streamType != inputs[0].streamType {
        sameType := false;
      }
      if !inputs[i].streamType.temporal {
        temporal := false;
      }
      i := i + 1;
    }
    if rule == CycleCount && !temporal {
      return Err(Failure(NotTemporalMessage));
    }
    if !sameType && !indirect {
      return Err(Failure(DifferentTypesMessage));
    }
    var outputIndirect := !sameType || indirect;
    // The output type is the multiplexer entry type chosen by `temporal`,
    // or else the common type of the inputs.
    var outputTemporal := if outputIndirect then temporal else inputs[0].streamType.temporal;
    return Ok(Config(rule, outputIndirect, outputTemporal, inputs));
  }

  predicate Bounded(list: seq<nat>, n: nat)
  {
    forall k :: 0 <= k < |list| ==> list[k] < n
  }

  /** No stream context is listed twice. */
  ghost predicate Unique(members: multiset<nat>)
  {
    forall x :: members[x] <= 1
  }

  /** The list is non-decreasing by the cycle counts of its streams. */
  predicate Sorted(list: seq<nat>, cycles: seq<nat>)
    requires Bounded(list, |cycles|)
  {
    forall i, j :: 0 <= i < j < |list| ==> cycles[list[i]] <= cycles[list[j]]
  }

  /** The list a sorted tail becomes when stream s, just advanced, is put
      back: s goes before the first stream whose cycle count is not lower. */
  function Reinsert(tail: seq<nat>, s: nat, cycles: seq<nat>): (r: seq<nat>)
    requires s < |cycles| && Bounded(tail, |cycles|)
    ensures multiset(r) == multiset(tail) + multiset{s}
    ensures Bounded(r, |cycles|)
    decreases |tail|
  {
    if |tail| == 0 || cycles[s] <= cycles[tail[0]] then [s] + tail
    else
      assert tail == [tail[0]] + tail[1..];
      [tail[0]] + Reinsert(tail[1..], s, cycles)
  }

  /** Where Reinsert puts s: after exactly the streams with a lower cycle
      count at the front of the tail, so on equal cycle counts the advanced
      stream goes first. */
  lemma {:induction false} ReinsertPlacement(tail: seq<nat>, s: nat, cycles: seq<nat>) returns (k: nat)
    requires s < |cycles| && Bounded(tail, |cycles|)
    ensures k <= |tail| && Reinsert(tail, s, cycles) == tail[..k] + [s] + tail[k..]
    ensures forall j :: 0 <= j < k ==> cycles[tail[j]] < cycles[s]
    ensures k < |tail| ==> cycles[s] <= cycles[tail[k]]
    decreases |tail|
  {
    if |tail| == 0 || cycles[s] <= cycles[tail[0]] {
      k := 0;
    } else {
      var k' := ReinsertPlacement(tail[1..], s, cycles);
      k := k' + 1;
      assert Reinsert(tail, s, cycles) == [tail[0]] + Reinsert(tail[1..], s, cycles);
      ConsSplit(tail, k', s);
      forall j | 0 <= j < k
        ensures cycles[tail[j]] < cycles[s]
      {
        if j > 0 {
          assert tail[j] == tail[1..][j - 1];
        }
      }
      if k < |tail| {
        assert tail[k] == tail[1..][k'];
      }
    }
  }

  lemma ConsSplit(tail: seq<nat>, k: nat, s: nat)
    requires 0 < |tail| && k < |tail|
    ensures [tail[0]] + (tail[1..][..k] + [s] + tail[1..][k..]) == tail[..k + 1] + [s] + tail[k + 1..]
  {
    assert [tail[0]] + tail[1..][..k] == tail[..k + 1];
    assert tail[1..][k..] == tail[k + 1..];
  }

  /** Reinserting into a sorted tail gives a sorted list. */
  lemma {:induction false} ReinsertSorted(tail: seq<nat>, s: nat, cycles: seq<nat>)
    requires s < |cycles| && Bounded(tail, |cycles|) && Sorted(tail, cycles)
    ensures Sorted(Reinsert(tail, s, cycles), cycles)
    decreases |tail|
  {
    if |tail| == 0 || cycles[s] <= cycles[tail[0]] {
    } else {
      var rest := Reinsert(tail[1..], s, cycles);
      ReinsertSorted(tail[1..], s, cycles);
      var r := [tail[0]] + rest;
      forall i, j | 0 <= i < j < |r|
        ensures cycles[r[i]] <= cycles[r[j]]
      {
        if i == 0 {
          ReinsertAbove(tail, s, cycles, j - 1);
        } else {
          assert r[i] == rest[i - 1] && r[j] == rest[j - 1];
        }
      }
    }
  }

  /** When s goes behind the first stream of a sorted tail, that stream's
      cycle count bounds every stream of the rest. */
  lemma ReinsertAbove(tail: seq<nat>, s: nat, cycles: seq<nat>, j: nat)
    requires s < |cycles| && Bounded(tail, |cycles|) && Sorted(tail, cycles)
    requires |tail| > 0 && cycles[s] > cycles[tail[0]] && j < |Reinsert(tail[1..], s, cycles)|
    ensures cycles[tail[0]] <= cycles[Reinsert(tail[1..], s, cycles)[j]]
  {
    var rest := Reinsert(tail[1..], s, cycles);
    var x := rest[j];
    assert x in multiset(rest);
    if x != s {
      assert x in multiset(tail[1..]);
      var a :| 0 <= a < |tail[1..]| && tail[1..][a] == x;
      assert tail[a + 1] == x;
    }
  }

  /** std::sort with compareByCycleCountWithPointer in _open: a sorted
      permutation of the list. */
  function SortByCycle(list: seq<nat>, cycles: seq<nat>): (r: seq<nat>)
    requires Bounded(list, |cycles|)
    ensures multiset(r) == multiset(list)
    ensures Bounded(r, |cycles|) && Sorted(r, cycles)
    decreases |list|
  {
    if |list| == 0 then []
    else
      var rest := SortByCycle(list[1..], cycles);
      ReinsertSorted(rest, list[0], cycles);
      assert list == [list[0]] + list[1..];
      Reinsert(rest, list[0], cycles)
  }

  /** The entries of each input are in cycle-count order. */
  predicate InOrder(entries: seq<nat>, temporal: bool)
  {
    forall i, j :: 0 <= i < j < |entries| ==> CycleOf(entries[i], temporal) <= CycleOf(entries[j], temporal)
  }

  predicate Ordered(config: Config)
  {
    forall s :: 0 <= s < |config.inputs| ==> InOrder(config.inputs[s].entries, config.temporal)
  }

  /** The state of an open handle: read[s] entries were taken from input s;
      every listed stream has a current entry whose cycle count is cycles[s];
      every input that still has entries is listed; the index is -1 before
      the first call and after the end, else a list position; under the
      cycle-count rule the list is sorted and the index is its head. */
  ghost predicate Consistent(config: Config, read: seq<nat>, cycles: seq<nat>, list: seq<nat>, index: int)
  {
    && Listed(config, read, cycles, multiset(list))
    && Bounded(list, |read|)
    && -1 <= index < |list|
    && (config.rule == CycleCount ==> Sorted(list, cycles) && index <= 0)
  }

  /** The per-input part of Consistent, over the members of the list, so
      that it does not depend on their order. */
  ghost predicate Listed(config: Config, read: seq<nat>, cycles: seq<nat>, members: multiset<nat>)
  {
    && |read| == |config.inputs| && |cycles| == |config.inputs|
    && (forall s :: 0 <= s < |read| ==> read[s] <= |config.inputs[s].entries|)
    && Unique(members)
    && (forall s {:trigger members[s]} :: s in members ==>
          s < |read| && 1 <= read[s] &&
          cycles[s] == CycleOf(config.inputs[s].entries[read[s] - 1], config.temporal))
    && (forall s :: 0 <= s < |read| && read[s] < |config.inputs[s].entries| ==> s in members)
  }

  /** Dropping an exhausted stream from the members. */
  lemma RemoveListed(config: Config, read: seq<nat>, cycles: seq<nat>, members: multiset<nat>, s: nat)
    requires Listed(config, read, cycles, members) && s in members
    requires read[s] == |config.inputs[s].entries|
    ensures Listed(config, read, cycles, members - multiset{s})
  {
    forall x
      ensures (members - multiset{s})[x] <= members[x]
    {
    }
  }

  /** The members left after erasing position index of a list without
      duplicates. */
  lemma RemoveMembers(list: seq<nat>, index: nat)
    requires index < |list|
    ensures multiset(list[..index] + list[index + 1..]) == multiset(list) - multiset{list[index]}
  {
    assert list == list[..index] + [list[index]] + list[index + 1..];
  }

  lemma RemoveBounded(list: seq<nat>, index: nat, n: nat)
    requires Bounded(list, n) && index < |list|
    ensures Bounded(list[..index] + list[index + 1..], n)
  {
    var rest := list[..index] + list[index + 1..];
    forall k | 0 <= k < |rest|
      ensures rest[k] < n
    {
      assert rest[k] == if k < index then list[k] else list[k + 1];
    }
  }

  lemma RemoveSorted(list: seq<nat>, cycles: seq<nat>, index: nat)
    requires Bounded(list, |cycles|) && Sorted(list, cycles) && index < |list|
    requires Bounded(list[..index] + list[index + 1..], |cycles|)
    ensures Sorted(list[..index] + list[index + 1..], cycles)
  {
    var rest := list[..index] + list[index + 1..];
    forall i, j | 0 <= i < j < |rest|
      ensures cycles[rest[i]] <= cycles[rest[j]]
    {
      assert rest[i] == if i < index then list[i] else list[i + 1];
      assert rest[j] == if j < index then list[j] else list[j + 1];
    }
  }

  /** Advancing a listed stream to its next entry. */
  lemma AdvanceListed(config: Config, read: seq<nat>, cycles: seq<nat>, members: multiset<nat>, s: nat)
    requires Listed(config, read, cycles, members) && s in members && read[s] < |config.inputs[s].entries|
    ensures Listed(config, read[s := read[s] + 1],
                   cycles[s := CycleOf(config.inputs[s].entries[read[s]], config.temporal)], members)
  {
  }

  /** The rest of a sorted list stays sorted whatever the cycle count of its
      (unique) head becomes. */
  lemma SortedAdvance(list: seq<nat>, cycles: seq<nat>, s: nat, c: nat)
    requires Bounded(list, |cycles|) && Sorted(list, cycles) && Unique(multiset(list)) && |list| > 0 && list[0] == s
    ensures Bounded(list[1..], |cycles|) && s !in list[1..]
    ensures Sorted(list[1..], cycles[s := c])
  {
    assert list == [s] + list[1..];
    assert multiset(list)[s] == 1 + multiset(list[1..])[s];
  }

  /** _getNextEntry after dropping the exhausted stream at index. */
  lemma AfterRemove(config: Config, read: seq<nat>, cycles: seq<nat>, list: seq<nat>, index: nat)
    requires Consistent(config, read, cycles, list, index) && index < |list|
    requires read[list[index]] == |config.inputs[list[index]].entries|
    ensures var rest := list[..index] + list[index + 1..];
            Consistent(config, read, cycles, rest, if |rest| == 0 then -1 else if index == |rest| then index - 1 else index)
    ensures multiset(list[..index] + list[index + 1..]) == multiset(list) - multiset{list[index]}
  {
    RemoveMembers(list, index);
    assert list[index] in multiset(list);
    RemoveListed(config, read, cycles, multiset(list), list[index]);
    RemoveBounded(list, index, |read|);
    if config.rule == CycleCount {
      RemoveSorted(list, cycles, index);
    }
  }

  /** _getNextEntry after advancing the head and reinserting it. */
  lemma AfterCycleCount(config: Config, read: seq<nat>, cycles: seq<nat>, list: seq<nat>,
                        read': seq<nat>, cycles': seq<nat>)
    requires Consistent(config, read, cycles, list, 0) && config.rule == CycleCount && |list| > 0
    requires read[list[0]] < |config.inputs[list[0]].entries|
    requires read' == read[list[0] := read[list[0]] + 1]
    requires cycles' == cycles[list[0] := CycleOf(config.inputs[list[0]].entries[read[list[0]]], config.temporal)]
    ensures Bounded(list[1..], |cycles'|)
    ensures Consistent(config, read', cycles', Reinsert(list[1..], list[0], cycles'), 0)
    ensures multiset(Reinsert(list[1..], list[0], cycles')) == multiset(list)
  {
    AdvanceHead(config, read, cycles, list, read', cycles');
    var list' := Reinsert(list[1..], list[0], cycles');
    ReinsertSorted(list[1..], list[0], cycles');
    ReinsertHead(list, cycles');
    Relisted(config, read', cycles', list, list');
  }

  /** Advancing the head of a sorted list: the members stay listed and the
      rest of the list stays sorted by the new cycle counts. */
  lemma AdvanceHead(config: Config, read: seq<nat>, cycles: seq<nat>, list: seq<nat>,
                    read': seq<nat>, cycles': seq<nat>)
    requires Consistent(config, read, cycles, list, 0) && config.rule == CycleCount && |list| > 0
    requires read[list[0]] < |config.inputs[list[0]].entries|
    requires read' == read[list[0] := read[list[0]] + 1]
    requires cycles' == cycles[list[0] := CycleOf(config.inputs[list[0]].entries[read[list[0]]], config.temporal)]
    ensures Listed(config, read', cycles', multiset(list))
    ensures Bounded(list[1..], |cycles'|) && Sorted(list[1..], cycles')
  {
    var s := list[0];
    assert s in multiset(list);
    AdvanceListed(config, read, cycles, multiset(list), s);
    SortedAdvance(list, cycles, s, CycleOf(config.inputs[s].entries[read[s]], config.temporal));
  }

  /** Reinserting the head of a list keeps its members. */
  lemma ReinsertHead(list: seq<nat>, cycles: seq<nat>)
    requires |list| > 0 && list[0] < |cycles| && Bounded(list[1..], |cycles|)
    ensures multiset(Reinsert(list[1..], list[0], cycles)) == multiset(list)
  {
    assert list == [list[0]] + list[1..];
  }

  /** A sorted reordering of the members of a consistent list is a
      consistent list headed by index 0. */
  lemma Relisted(config: Config, read: seq<nat>, cycles: seq<nat>, list: seq<nat>, list': seq<nat>)
    requires Listed(config, read, cycles, multiset(list)) && multiset(list') == multiset(list)
    requires Bounded(list', |cycles|) && Sorted(list', cycles) && |list'| > 0
    requires config.rule == CycleCount
    ensures Consistent(config, read, cycles, list', 0)
  {
  }

  /** The part of a handle that _getNextEntry changes. */
  datatype HandleState = HandleState(read: seq<nat>, cycles: seq<nat>, list: seq<nat>, index: int)

  ghost predicate Opened(config: Config, st: HandleState)
  {
    Consistent(config, st.read, st.cycles, st.list, st.index)
  }

  lemma BoundedTail(list: seq<nat>, n: nat)
    requires Bounded(list, n) && |list| > 0
    ensures Bounded(list[1..], n)
  {
    forall k | 0 <= k < |list[1..]|
      ensures list[1..][k] < n
    {
      assert list[1..][k] == list[k + 1];
    }
  }

  /** The shape of a handle state that Next needs to be defined: the
      per-input sequences have one element per input, the list holds
      inputs, the index is -1 or a list position, and the cycle-count rule
      only ever looks at the head. Opened implies it. */
  ghost predicate Shaped(config: Config, st: HandleState)
  {
    && |st.read| == |config.inputs| && |st.cycles| == |config.inputs|
    && Bounded(st.list, |st.read|) && -1 <= st.index < |st.list|
    && (config.rule == CycleCount ==> st.index <= 0)
  }

  /** The handle state after a call of _getNextEntry: the first call only
      moves the index to the head; later calls advance the stream handed
      out last, drop it from the list when it has no entry left (keeping
      the index inside the list), and otherwise step the index round robin
      or reinsert the stream by its new cycle count. */
  ghost function Next(config: Config, st: HandleState): (r: HandleState)
    requires Shaped(config, st)
    ensures Shaped(config, r) && (|r.list| > 0 ==> r.index >= 0)
  {
    if st.index == -1 then
      st.(index := if |st.list| > 0 then 0 else -1)
    else
      var s := st.list[st.index];
      if st.read[s] < |config.inputs[s].entries| then
        var read := st.read[s := st.read[s] + 1];
        var cycles := st.cycles[s := CycleOf(config.inputs[s].entries[st.read[s]], config.temporal)];
        match config.rule
        case RoundRobin =>
          HandleState(read, cycles, st.list, (st.index + 1) % |st.list|)
        case CycleCount =>
          BoundedTail(st.list, |st.read|);
          HandleState(read, cycles, Reinsert(st.list[1..], s, cycles), 0)
      else
        RemoveBounded(st.list, st.index, |st.read|);
        var rest := st.list[..st.index] + st.list[st.index + 1..];
        HandleState(st.read, st.cycles, rest,
                    if |rest| == 0 then -1 else if st.index == |rest| then st.index - 1 else st.index)
  }

  /** _getNextEntry keeps the handle consistent. */
  lemma NextOpened(config: Config, st: HandleState)
    requires Opened(config, st)
    ensures Opened(config, Next(config, st)) && Pointing(Next(config, st))
  {
    NextConsistent(config, st);
    NextPointing(config, st);
  }

  lemma NextConsistent(config: Config, st: HandleState)
    requires Opened(config, st)
    ensures Opened(config, Next(config, st))
  {
    if st.index == -1 {
    } else if st.read[st.list[st.index]] < |config.inputs[st.list[st.index]].entries| {
      match config.rule
      case RoundRobin => StepRoundRobinOpened(config, st);
      case CycleCount => StepCycleCountOpened(config, st);
    } else {
      DropOpened(config, st);
    }
  }

  /** After _getNextEntry a non-empty list leaves the index on a stream
      with a current entry. */
  lemma NextPointing(config: Config, st: HandleState)
    requires Opened(config, st)
    ensures Pointing(Next(config, st))
  {
    NextConsistent(config, st);
    var r := Next(config, st);
    if |r.list| > 0 {
      CurrentEntry(config, r.read, r.cycles, r.list, r.index);
    }
  }

  lemma DropOpened(config: Config, st: HandleState)
    requires Opened(config, st) && 0 <= st.index
    requires st.read[st.list[st.index]] == |config.inputs[st.list[st.index]].entries|
    ensures Opened(config, Next(config, st))
  {
    AfterRemove(config, st.read, st.cycles, st.list, st.index);
  }

  lemma StepRoundRobinOpened(config: Config, st: HandleState)
    requires Opened(config, st) && 0 <= st.index && config.rule == RoundRobin
    requires st.read[st.list[st.index]] < |config.inputs[st.list[st.index]].entries|
    ensures Opened(config, Next(config, st))
  {
    var r := Next(config, st);
    AfterRoundRobin(config, st.read, st.cycles, st.list, st.index, r.read, r.cycles);
  }

  /** _getNextEntry after advancing the stream at the index and stepping
      past it. */
  lemma AfterRoundRobin(config: Config, read: seq<nat>, cycles: seq<nat>, list: seq<nat>, index: nat,
                        read': seq<nat>, cycles': seq<nat>)
    requires Consistent(config, read, cycles, list, index) && config.rule == RoundRobin && index < |list|
    requires read[list[index]] < |config.inputs[list[index]].entries|
    requires read' == read[list[index] := read[list[index]] + 1]
    requires cycles' == cycles[list[index] := CycleOf(config.inputs[list[index]].entries[read[list[index]]], config.temporal)]
    ensures Consistent(config, read', cycles', list, (index + 1) % |list|)
  {
    var s := list[index];
    assert s in multiset(list);
    AdvanceListed(config, read, cycles, multiset(list), s);
  }

  lemma StepCycleCountOpened(config: Config, st: HandleState)
    requires Opened(config, st) && 0 <= st.index && config.rule == CycleCount
    requires st.read[st.list[0]] < |config.inputs[st.list[0]].entries|
    ensures Opened(config, Next(config, st))
  {
    var r := Next(config, st);
    AfterCycleCount(config, st.read, st.cycles, st.list, r.read, r.cycles);
  }

  /** Unless the list is empty, the index is on a stream that has a
      current entry. */
  ghost predicate Pointing(st: HandleState)
  {
    |st.list| > 0 ==> 0 <= st.index < |st.list| && st.list[st.index] < |st.read| && 1 <= st.read[st.list[st.index]]
  }

  /** The entry a call hands out from the state it leaves: null when the
      list is empty, else the current entry of the stream at the index. */
  ghost function Handed(config: Config, st: HandleState): Option<Entry>
    requires Shaped(config, st) && Pointing(st)
  {
    if |st.list| == 0 then None
    else
      var t := st.list[st.index];
      Some(Entry(st.cycles[t], t, st.read[t] - 1))
  }

  /** Every listed stream has a current entry. */
  lemma CurrentEntry(config: Config, read: seq<nat>, cycles: seq<nat>, list: seq<nat>, k: int)
    requires Consistent(config, read, cycles, list, k) && 0 <= k
    ensures list[k] < |read| && 1 <= read[list[k]] <= |config.inputs[list[k]].entries|
  {
    assert list[k] in multiset(list);
  }

  /** The entry handed out is an entry of its input stream, and its cycle
      count is that entry's. */
  lemma HandedFromInput(config: Config, st: HandleState)
    requires Opened(config, st) && Pointing(st)
    ensures var r := Handed(config, st);
            r.Some? ==>
              r.value.streamIdx < |config.inputs| && r.value.position < |config.inputs[r.value.streamIdx].entries| &&
              r.value.cycleCount == CycleOf(config.inputs[r.value.streamIdx].entries[r.value.position], config.temporal)
  {
    if |st.list| > 0 {
      assert st.list[st.index] in multiset(st.list);
    }
  }

  /** Null is handed out only when every input has been read to its end. */
  lemma HandedNullAtEnd(config: Config, st: HandleState)
    requires Opened(config, st) && Pointing(st)
    ensures Handed(config, st).None? ==> forall s :: 0 <= s < |config.inputs| ==> st.read[s] == |config.inputs[s].entries|
    ensures Handed(config, st).None? <==> |st.list| == 0
  {
  }

  /** Under the cycle-count rule the entry handed out has the lowest cycle
      count of all current entries. */
  lemma HandedLowest(config: Config, st: HandleState)
    requires Opened(config, st) && Pointing(st) && config.rule == CycleCount
    ensures var r := Handed(config, st);
            r.Some? ==> forall k :: 0 <= k < |st.list| ==> r.value.cycleCount <= st.cycles[st.list[k]]
  {
  }

  /** Under the cycle-count rule over inputs in cycle-count order the
      multiplexed stream is in cycle-count order too: each entry handed
      out has a cycle count no lower than the one handed out before it. */
  lemma NextNotBelow(config: Config, st: HandleState)
    requires Opened(config, st) && config.rule == CycleCount && Ordered(config)
    requires st.index == 0
    ensures Opened(config, Next(config, st)) && Pointing(Next(config, st))
    ensures var r := Handed(config, Next(config, st));
            r.Some? ==> st.cycles[st.list[0]] <= r.value.cycleCount
  {
    NextOpened(config, st);
    if st.read[st.list[0]] < |config.inputs[st.list[0]].entries| {
      StepNotBelow(config, st);
    } else {
      DropNotBelow(config, st);
    }
  }

  /** NextNotBelow when the head has entries left. */
  lemma StepNotBelow(config: Config, st: HandleState)
    requires Opened(config, st) && config.rule == CycleCount && Ordered(config) && st.index == 0
    requires st.read[st.list[0]] < |config.inputs[st.list[0]].entries|
    ensures Shaped(config, Next(config, st)) && Pointing(Next(config, st))
    ensures var r := Handed(config, Next(config, st));
            r.Some? ==> st.cycles[st.list[0]] <= r.value.cycleCount
  {
    StepCycleCountOpened(config, st);
    var st' := Next(config, st);
    CurrentEntry(config, st'.read, st'.cycles, st'.list, 0);
    var s := st.list[0];
    var t := st'.list[0];
    assert multiset(st'.list) == multiset(st.list) by {
      ReinsertHead(st.list, st'.cycles);
    }
    assert t in multiset(st'.list);
    assert st'.cycles[t] == CycleOf(config.inputs[t].entries[st'.read[t] - 1], config.temporal);
    if t == s {
      HeadIsMinimal(config, st.read, st.cycles, st.list, 0, t, st.read[s]);
    } else {
      HeadIsMinimal(config, st.read, st.cycles, st.list, 0, t, st.read[t] - 1);
    }
  }

  /** NextNotBelow when the head has no entry left. */
  lemma DropNotBelow(config: Config, st: HandleState)
    requires Opened(config, st) && config.rule == CycleCount && Ordered(config) && st.index == 0
    requires st.read[st.list[0]] == |config.inputs[st.list[0]].entries|
    ensures Shaped(config, Next(config, st)) && Pointing(Next(config, st))
    ensures var r := Handed(config, Next(config, st));
            r.Some? ==> st.cycles[st.list[0]] <= r.value.cycleCount
  {
    DropOpened(config, st);
    var st' := Next(config, st);
    if |st'.list| > 0 {
      CurrentEntry(config, st'.read, st'.cycles, st'.list, 0);
      var t := st'.list[0];
      assert st'.list == st.list[1..];
      assert t in st.list;
      HeadIsMinimal(config, st.read, st.cycles, st.list, 0, t, st.read[t] - 1);
    }
  }

  /** The entry at the head of the list has the lowest cycle count of all
      entries not yet handed out: the merge invariant of the cycle-count
      rule over inputs in cycle-count order. */
  lemma HeadIsMinimal(config: Config, read: seq<nat>, cycles: seq<nat>, list: seq<nat>, index: int, s: nat, i: nat)
    requires Consistent(config, read, cycles, list, index)
    requires config.rule == CycleCount && Ordered(config) && |list| > 0
    requires s < |config.inputs| && i < |config.inputs[s].entries|
    requires read[s] <= i || (s in list && i + 1 == read[s])
    ensures cycles[list[0]] <= CycleOf(config.inputs[s].entries[i], config.temporal)
  {
    assert s in multiset(list);
    var k :| 0 <= k < |list| && list[k] == s;
    assert cycles[list[0]] <= cycles[s];
    assert InOrder(config.inputs[s].entries, config.temporal);
  }

  /** The open handle of a multiplexer (HandleContext). */
  class Handle {
    const config: Config
    /** Entries taken so far from each input's stream handle. */
    var read: seq<nat>
    /** The cycle count of each input's current entry. */
    var cycles: seq<nat>
    /** The inputs that still have a current entry. */
    var list: seq<nat>
    var index: int

    ghost predicate Valid()
      reads this
    {
      Consistent(config, read, cycles, list, index)
    }

    /** HandleStreamContext::update for input s: take its next entry, or
        report the end of the stream. */
    method Update(s: nat) returns (ok: bool)
      requires s < |config.inputs| && s < |read| && |cycles| == |read|
      modifies this
      ensures ok <==> old(read[s]) < |config.inputs[s].entries|
      ensures ok ==> read == old(read)[s := old(read[s]) + 1] &&
                     cycles == old(cycles)[s := CycleOf(config.inputs[s].entries[old(read[s])], config.temporal)]
      ensures !ok ==> read == old(read) && cycles == old(cycles)
      ensures list == old(list) && index == old(index)
    {
      if read[s] >= |config.inputs[s].entries| {
        return false;
      }
      cycles := cycles[s := CycleOf(config.inputs[s].entries[read[s]], config.temporal)];
      read := read[s := read[s] + 1];
      return true;
    }

    /** _open: every input is asked for its first entry, the inputs that
        have one are listed in input order, and under the cycle-count rule
        the list is sorted. */
    constructor Open(config: Config)
      ensures Valid() && this.config == config && index == -1
      ensures forall s :: 0 <= s < |config.inputs| ==>
                read[s] == (if |config.inputs[s].entries| > 0 then 1 else 0) &&
                (s in list <==> |config.inputs[s].entries| > 0)
      ensures config.rule == RoundRobin ==> forall i, j :: 0 <= i < j < |list| ==> list[i] < list[j]
    {
      this.config := config;
      read := [];
      cycles := [];
      list := [];
      index := -1;
      new;
      var i := 0;
      while i < |config.inputs|
        invariant this.config == config && index == -1
        invariant OpenedPrefix(config, read, cycles, list, i)
      {
        ghost var (read0, cycles0, list0) := (read, cycles, list);
        OpenStep(config, read0, cycles0, list0, i);
        read := read + [0];
        cycles := cycles + [0];
        var ok := Update(i);
        if ok {
          list := list + [i];
        }
        i := i + 1;
      }
      ghost var list0 := list;
      if config.rule == CycleCount {
        SortList();
      }
      OpenedValid(config, read, cycles, list0, list);
    }

    ghost function State(): HandleState
      reads this
    {
      HandleState(read, cycles, list, index)
    }

    /** _getNextEntry, specified by Next and Handed. */
    method GetNextEntry() returns (r: Option<Entry>)
      requires Valid()
      modifies this
      ensures State() == Next(config, old(State()))
      ensures Valid() && Pointing(State())
      ensures r == Handed(config, State())
    {
      ghost var st := State();
      NextOpened(config, st);
      Advance();
      r := Current();
    }

    /** The entry at the index, or null when the list is empty. */
    method Current() returns (r: Option<Entry>)
      requires Shaped(config, State()) && Pointing(State())
      ensures r == Handed(config, State())
    {
      if |list| == 0 {
        r := None;
      } else {
        var t := list[index];
        r := Some(Entry(cycles[t], t, read[t] - 1));
      }
    }

    /** The state change of _getNextEntry: the index moves to the head on
        the first call; later the stream at the index is advanced and then
        dropped, stepped past or moved back to its place. */
    method Advance()
      requires Shaped(config, State())
      modifies this
      ensures State() == Next(config, old(State()))
    {
      if index == -1 {
        if |list| > 0 {
          index := 0;
        }
      } else {
        var s := list[index];
        var ok := Update(s);
        if !ok {
          list := list[..index] + list[index + 1..];
          if |list| == 0 {
            index := -1;
          } else if index == |list| {
            index := index - 1;
          }
        } else {
          match config.rule {
            case RoundRobin =>
              index := (index + 1) % |list|;
            case CycleCount =>
              BoundedTail(list, |cycles|);
              ShiftHead(s);
          }
        }
      }
    }

    /** The std::sort call of _open. */
    method SortList()
      requires Bounded(list, |cycles|)
      modifies this
      ensures Bounded(list, |cycles|) && Sorted(list, cycles) && multiset(list) == old(multiset(list))
      ensures read == old(read) && cycles == old(cycles) && index == old(index)
    {
      list := SortByCycle(list, cycles);
    }

    /** The insertion loop of the cycle-count rule: the advanced head s is
        moved back until the next stream's cycle count is not lower. */
    method ShiftHead(s: nat)
      requires |list| > 0 && list[0] == s && s < |cycles| && Bounded(list[1..], |cycles|)
      modifies this
      ensures read == old(read) && cycles == old(cycles) && index == old(index)
      ensures list == Reinsert(old(list)[1..], s, cycles)
    {
      ghost var tail := list[1..];
      ShiftStart(list, s, cycles);
      var i := 0;
      while true
        invariant Shifting(list, tail, i, s, cycles)
        invariant read == old(read) && cycles == old(cycles) && index == old(index)
        decreases |list| - i
      {
        ghost var j := i;
        i := i + 1;
        if i >= |list| || cycles[s] <= cycles[list[i]] {
          ShiftDone(list, tail, j, s, cycles);
          list := list[i - 1 := s];
          return;
        }
        ShiftStep(list, tail, j, s, cycles);
        list := list[i - 1 := list[i]];
      }
    }
  }

  /** The state of the insertion loop after i moves: the first i streams of
      the tail have moved one place to the front, the rest is in place, and
      Reinsert on the rest finishes the job. */
  ghost predicate Shifting(list: seq<nat>, tail: seq<nat>, i: nat, s: nat, cycles: seq<nat>)
  {
    && i < |list| && |list| == |tail| + 1
    && s < |cycles| && Bounded(tail, |cycles|) && Bounded(tail[i..], |cycles|)
    && (forall k :: 0 <= k < i ==> list[k] == tail[k])
    && (forall k :: i < k < |list| ==> list[k] == tail[k - 1])
    && Reinsert(tail, s, cycles) == tail[..i] + Reinsert(tail[i..], s, cycles)
  }

  lemma ShiftStart(list: seq<nat>, s: nat, cycles: seq<nat>)
    requires |list| > 0 && s < |cycles| && Bounded(list[1..], |cycles|)
    ensures Shifting(list, list[1..], 0, s, cycles)
  {
    assert list[1..][0..] == list[1..];
  }

  /** A stream with a lower cycle count moves one place to the front. */
  lemma ShiftStep(list: seq<nat>, tail: seq<nat>, i: nat, s: nat, cycles: seq<nat>)
    requires Shifting(list, tail, i, s, cycles)
    requires i + 1 < |list| && cycles[s] > cycles[list[i + 1]]
    ensures Shifting(list[i := list[i + 1]], tail, i + 1, s, cycles)
  {
    assert list[i + 1] == tail[i];
    assert tail[i..][1..] == tail[i + 1..];
    BoundedTail(tail[i..], |cycles|);
    var rest := Reinsert(tail[i + 1..], s, cycles);
    assert Reinsert(tail[i..], s, cycles) == [tail[i]] + rest;
    assert tail[..i] + ([tail[i]] + rest) == (tail[..i] + [tail[i]]) + rest;
    assert tail[..i + 1] == tail[..i] + [tail[i]];
  }

  /** The loop ends by writing s into the gap, which yields Reinsert. */
  lemma ShiftDone(list: seq<nat>, tail: seq<nat>, i: nat, s: nat, cycles: seq<nat>)
    requires Shifting(list, tail, i, s, cycles)
    requires i + 1 >= |list| || cycles[s] <= cycles[list[i + 1]]
    ensures list[i := s] == Reinsert(tail, s, cycles)
  {
    assert Reinsert(tail[i..], s, cycles) == [s] + tail[i..];
    PutAt(list, tail, i, s);
  }

  /** Writing s into the gap left by shifting the front of tail by one. */
  lemma PutAt(list: seq<nat>, tail: seq<nat>, j: nat, s: nat)
    requires |list| == |tail| + 1 && j < |list|
    requires forall k :: 0 <= k < j ==> list[k] == tail[k]
    requires forall k :: j < k < |list| ==> list[k] == tail[k - 1]
    ensures list[j := s] == tail[..j] + ([s] + tail[j..])
  {
    var r := tail[..j] + ([s] + tail[j..]);
    assert |r| == |list|;
    forall k | 0 <= k < |r|
      ensures r[k] == list[j := s][k]
    {
      if k < j {
        assert r[k] == tail[k];
      } else if k > j {
        assert r[k] == tail[k - 1];
      }
    }
  }

  /** What _open has set up after asking the first i inputs. */
  ghost predicate OpenedPrefix(config: Config, read: seq<nat>, cycles: seq<nat>, list: seq<nat>, i: nat)
  {
    && i <= |config.inputs| && |read| == i && |cycles| == i
    && (forall s :: 0 <= s < i ==>
          read[s] == (if |config.inputs[s].entries| > 0 then 1 else 0) &&
          (s in list <==> |config.inputs[s].entries| > 0))
    && Bounded(list, i)
    && (forall a, b :: 0 <= a < b < |list| ==> list[a] < list[b])
    && (forall x :: x in list ==> x < i && cycles[x] == CycleOf(config.inputs[x].entries[0], config.temporal))
  }

  /** One round of the loop in _open: input i is asked for its first entry
      and listed when it has one. */
  lemma OpenStep(config: Config, read: seq<nat>, cycles: seq<nat>, list: seq<nat>, i: nat)
    requires OpenedPrefix(config, read, cycles, list, i) && i < |config.inputs|
    ensures |config.inputs[i].entries| > 0 ==>
              OpenedPrefix(config, (read + [0])[i := (read + [0])[i] + 1],
                           (cycles + [0])[i := CycleOf(config.inputs[i].entries[(read + [0])[i]], config.temporal)],
                           list + [i], i + 1)
    ensures |config.inputs[i].entries| == 0 ==> OpenedPrefix(config, read + [0], cycles + [0], list, i + 1)
  {
  }

  /** After the loop of _open every input is listed as Listed demands. */
  lemma OpenedListed(config: Config, read: seq<nat>, cycles: seq<nat>, list: seq<nat>)
    requires OpenedPrefix(config, read, cycles, list, |config.inputs|)
    ensures Listed(config, read, cycles, multiset(list)) && Bounded(list, |read|)
    ensures forall i, j :: 0 <= i < j < |list| ==> list[i] < list[j]
  {
    IncreasingUnique(list);
  }

  /** What _open leaves: a consistent handle before its first call, with
      the list in input order under the round-robin rule. */
  lemma OpenedValid(config: Config, read: seq<nat>, cycles: seq<nat>, list0: seq<nat>, list: seq<nat>)
    requires OpenedPrefix(config, read, cycles, list0, |config.inputs|)
    requires multiset(list) == multiset(list0) && Bounded(list, |cycles|)
    requires config.rule == CycleCount ==> Sorted(list, cycles)
    requires config.rule == RoundRobin ==> list == list0
    ensures Consistent(config, read, cycles, list, -1)
    ensures forall s :: 0 <= s < |config.inputs| ==>
              read[s] == (if |config.inputs[s].entries| > 0 then 1 else 0) &&
              (s in list <==> |config.inputs[s].entries| > 0)
    ensures config.rule == RoundRobin ==> forall i, j :: 0 <= i < j < |list| ==> list[i] < list[j]
  {
    OpenedListed(config, read, cycles, list0);
    forall s | 0 <= s < |config.inputs|
      ensures s in list <==> s in list0
    {
      assert s in list <==> s in multiset(list);
      assert s in list0 <==> s in multiset(list0);
    }
  }

  lemma IncreasingUnique(list: seq<nat>)
    requires forall a, b :: 0 <= a < b < |list| ==> list[a] < list[b]
    ensures Unique(multiset(list))
  {
    if |list| > 0 {
      var prefix := list[..|list| - 1];
      var last := list[|list| - 1];
      IncreasingUnique(prefix);
      assert list == prefix + [last];
      forall a | 0 <= a < |prefix|
        ensures prefix[a] != last
      {
        assert list[a] < list[|list| - 1];
      }
    }
  }
}
