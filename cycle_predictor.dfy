/** The cycle count predictor of VPC4
    (simutrace/storageserver/simtrace/VPC4/CyclePredictor.h). It predicts
    the stride from the previous cycle count, offset by the ip, with the
    same pair of predictors as the ip predictor, and keeps the previous
    cycle count as its reference. Cycle counts, strides and ips are 64-bit
    unsigned integers: all arithmetic wraps around. */
module CyclePrediction {
  import opened Wrappers
  import opened FcmHistories
  import opened FcmPredictors
  import opened FcmPairs
  import opened Compound

  /** The same configuration as the ip predictor: FcmHistory<T, 17, 3>
      under a first-order predictor of 2^17 lines at idBase 0 and a
      third-order one of 2^19 lines at idBase 2. */
  const CycleConfig := PairConfig(Shape(0, 2, 17, 1), Shape(2, 2, 19, 3), 0, 17, 3)

  datatype CycleState = CycleState(pair: Pair, reference: Word)

  /** The pairs agree and the reference cycle counts are equal. */
  predicate Agree(a: CycleState, b: CycleState)
  {
    FcmPairs.Agree(a.pair, b.pair) && a.reference == b.reference
  }

  /** encodeCycle: the stride from the reference, offset by the ip, is the
      value the predictors see; the reference becomes the cycle count, and
      an unpredicted value goes out as the bare stride. */
  function EncodeCycle(c: PairConfig, s: CycleState, cycle: Word, ip: Word): (r: (CycleState, Coded))
    requires PairShaped(c, s.pair)
    ensures PairShaped(c, r.0.pair) && WellCoded(r.1, End(c)) && r.0.reference == cycle
  {
    var stride := Minus(cycle, s.reference);
    var step := EncodeStep(c, s.pair, Plus(stride, ip));
    (CycleState(step.1, cycle), Evaluate(step.0, End(c), stride))
  }

  /** decodeCycle: a predicted id gives stride + ip, an unpredicted one the
      stride itself; the predictors and the history see stride + ip, the
      reference moves on by the stride and is the cycle count decoded. */
  function DecodeCycle(c: PairConfig, s: CycleState, code: Coded, ip: Word): (r: (CycleState, Word))
    requires PairShaped(c, s.pair) && WellCoded(code, End(c))
    ensures PairShaped(c, r.0.pair) && r.1 == r.0.reference
  {
    var predicted := code.id < End(c);
    var got := if predicted then PairGet(c, s.pair, code.id) else code.datum.value;
    var stride := if predicted then Minus(got, ip) else got;
    var update := if predicted then got else Plus(got, ip);
    var reference := Plus(s.reference, stride);
    (CycleState(DecodeStep(c, s.pair, update), reference), reference)
  }

  /** setCycleCount. */
  function WithReference(s: CycleState, cycleCount: Word): (r: CycleState)
    ensures r.pair == s.pair && r.reference == cycleCount
  {
    s.(reference := cycleCount)
  }

  /** A predicted id that names the stride from the reference r plus the
      ip: the decoder subtracts the ip again and adds the stride to r. */
  lemma DecodeRecoversPredicted(c: PairConfig, s: CycleState, code: Coded, ip: Word, cycle: Word, r: Word)
    requires PairShaped(c, s.pair) && WellCoded(code, End(c)) && s.reference == r && code.id < End(c)
    requires PairGet(c, s.pair, code.id) == Plus(Minus(cycle, r), ip)
    ensures DecodeCycle(c, s, code, ip) ==
            (CycleState(DecodeStep(c, s.pair, Plus(Minus(cycle, r), ip)), cycle), cycle)
  {
    WrapAround(Minus(cycle, r), ip);
    WrapAround(cycle, r);
  }

  /** An unpredicted emission that carries the stride from the reference
      r: the decoder adds the ip for the predictors and the stride to r. */
  lemma DecodeRecoversStride(c: PairConfig, s: CycleState, code: Coded, ip: Word, cycle: Word, r: Word)
    requires PairShaped(c, s.pair) && WellCoded(code, End(c)) && s.reference == r && code.id == End(c)
    requires code.datum.value == Minus(cycle, r)
    ensures DecodeCycle(c, s, code, ip) ==
            (CycleState(DecodeStep(c, s.pair, Plus(Minus(cycle, r), ip)), cycle), cycle)
  {
    WrapAround(cycle, r);
  }

  /** When the id names the stride from the reference r plus the ip, or
      the datum is that stride, the decoder recovers the cycle count: the
      predictors and the history see stride + ip and the reference becomes
      the cycle count. */
  lemma DecodeRecovers(c: PairConfig, s: CycleState, code: Coded, ip: Word, cycle: Word, r: Word)
    requires PairShaped(c, s.pair) && WellCoded(code, End(c)) && s.reference == r
    requires code.id < End(c) ==> PairGet(c, s.pair, code.id) == Plus(Minus(cycle, r), ip)
    requires code.id == End(c) ==> code.datum.value == Minus(cycle, r)
    ensures DecodeCycle(c, s, code, ip) ==
            (CycleState(DecodeStep(c, s.pair, Plus(Minus(cycle, r), ip)), cycle), cycle)
  {
    if code.id < End(c) {
      DecodeRecoversPredicted(c, s, code, ip, cycle, r);
    } else {
      DecodeRecoversStride(c, s, code, ip, cycle, r);
    }
  }

  /** From agreeing states, decodeCycle with the same ip after
      encodeCycle yields the cycle count, and the two sides agree again. */
  lemma EncodeDecode(c: PairConfig, a: CycleState, b: CycleState, cycle: Word, ip: Word)
    requires PairShaped(c, a.pair) && PairShaped(c, b.pair) && Agree(a, b)
    ensures var (a', code) := EncodeCycle(c, a, cycle, ip);
            var (b', x) := DecodeCycle(c, b, code, ip);
            x == cycle && Agree(a', b')
  {
    var stride := Minus(cycle, a.reference);
    StepsAgree(c, a.pair, b.pair, Plus(stride, ip));
    DecodeRecovers(c, b, EncodeCycle(c, a, cycle, ip).1, ip, cycle, a.reference);
  }

  /** Encoding a sequence of (cycle count, ip) events. */
  function EncodeCycles(c: PairConfig, s: CycleState, events: seq<(Word, Word)>): (r: (CycleState, seq<Coded>))
    requires PairShaped(c, s.pair)
    ensures PairShaped(c, r.0.pair) && |r.1| == |events| && forall k :: 0 <= k < |r.1| ==> WellCoded(r.1[k], End(c))
  {
    if |events| == 0 then (s, [])
    else
      var (s1, codes) := EncodeCycles(c, s, events[..|events| - 1]);
      var (s2, code) := EncodeCycle(c, s1, events[|events| - 1].0, events[|events| - 1].1);
      (s2, codes + [code])
  }

  /** Decoding a sequence of emissions, each with the ip of its event. */
  function DecodeCycles(c: PairConfig, s: CycleState, codes: seq<Coded>, ips: seq<Word>): (r: (CycleState, seq<Word>))
    requires PairShaped(c, s.pair) && |ips| == |codes| && forall k :: 0 <= k < |codes| ==> WellCoded(codes[k], End(c))
    ensures PairShaped(c, r.0.pair) && |r.1| == |codes|
  {
    if |codes| == 0 then (s, [])
    else
      var (s1, cycles) := DecodeCycles(c, s, codes[..|codes| - 1], ips[..|ips| - 1]);
      var (s2, cycle) := DecodeCycle(c, s1, codes[|codes| - 1], ips[|ips| - 1]);
      (s2, cycles + [cycle])
  }

  /** The ips of a sequence of events. */
  function Ips(events: seq<(Word, Word)>): (r: seq<Word>)
    ensures |r| == |events| && forall k :: 0 <= k < |events| ==> r[k] == events[k].1
  {
    seq(|events|, k requires 0 <= k < |events| => events[k].1)
  }

  /** The cycle counts of a sequence of events. */
  function Cycles(events: seq<(Word, Word)>): (r: seq<Word>)
    ensures |r| == |events| && forall k :: 0 <= k < |events| ==> r[k] == events[k].0
  {
    seq(|events|, k requires 0 <= k < |events| => events[k].0)
  }

  /** Encoding one more event appends one emission. */
  lemma EncodeCyclesSnoc(c: PairConfig, s: CycleState, events: seq<(Word, Word)>, e: (Word, Word))
    requires PairShaped(c, s.pair)
    ensures var (s1, codes) := EncodeCycles(c, s, events);
            var (s2, code) := EncodeCycle(c, s1, e.0, e.1);
            EncodeCycles(c, s, events + [e]) == (s2, codes + [code])
  {
    assert (events + [e])[..|events|] == events;
  }

  /** Decoding one more emission appends one cycle count. */
  lemma DecodeCyclesSnoc(c: PairConfig, s: CycleState, codes: seq<Coded>, ips: seq<Word>, code: Coded, ip: Word)
    requires PairShaped(c, s.pair) && |ips| == |codes| && WellCoded(code, End(c))
    requires forall k :: 0 <= k < |codes| ==> WellCoded(codes[k], End(c))
    ensures var (s1, cycles) := DecodeCycles(c, s, codes, ips);
            var (s2, cycle) := DecodeCycle(c, s1, code, ip);
            DecodeCycles(c, s, codes + [code], ips + [ip]) == (s2, cycles + [cycle])
  {
    assert (codes + [code])[..|codes|] == codes;
    assert (ips + [ip])[..|ips|] == ips;
  }

  /** A whole stream round-trips: decoding the emissions with the same ips
      gives back the cycle counts, and the states agree afterwards. */
  lemma {:induction false} RoundTrip(c: PairConfig, a: CycleState, b: CycleState, events: seq<(Word, Word)>)
    requires PairShaped(c, a.pair) && PairShaped(c, b.pair) && Agree(a, b)
    ensures DecodeCycles(c, b, EncodeCycles(c, a, events).1, Ips(events)).1 == Cycles(events)
    ensures Agree(EncodeCycles(c, a, events).0, DecodeCycles(c, b, EncodeCycles(c, a, events).1, Ips(events)).0)
  {
    if |events| > 0 {
      var init, last := events[..|events| - 1], events[|events| - 1];
      assert events == init + [last];
      assert Ips(events) == Ips(init) + [last.1];
      assert Cycles(events) == Cycles(init) + [last.0];
      RoundTrip(c, a, b, init);
      var (a1, codes) := EncodeCycles(c, a, init);
      var (b1, xs) := DecodeCycles(c, b, codes, Ips(init));
      EncodeCyclesSnoc(c, a, init, last);
      var code := EncodeCycle(c, a1, last.0, last.1).1;
      DecodeCyclesSnoc(c, b, codes, Ips(init), code, last.1);
      EncodeDecode(c, a1, b1, last.0, last.1);
    }
  }

  /** CyclePredictor: the pair and the reference cycle count. */
  class CyclePredictor {
    const pair: FcmPair
    var reference: Word

    ghost predicate Valid()
      reads pair.Repr()
    {
      pair.Valid()
    }

    ghost function State(): CycleState
      reads this, pair.Repr()
    {
      CycleState(pair.State(), reference)
    }

    /** CyclePredictor(referenceCycleCount). */
    constructor (referenceCycleCount: Word, leftover1: seq<nat>, leftover3: seq<nat>)
      requires |leftover1| == 2 && |leftover3| == 2
      ensures Valid() && pair.cfg == CycleConfig && this !in pair.Repr()
      ensures State() == CycleState(InitialPair(CycleConfig, leftover1, leftover3), referenceCycleCount)
    {
      pair := new FcmPair(CycleConfig, leftover1, leftover3);
      reference := referenceCycleCount;
    }

    /** encodeCycle: the new state is EncodeCycle of the old; its id goes
        to the code buffer and, when not predicted, the stride to the data
        buffer. */
    method Encode(codes: Cursor<PredictorId>, data: Cursor<Word>, cycle: Word, ip: Word) returns (id: PredictorId)
      requires Valid() && this !in pair.Repr()
      requires codes.position < codes.buffer.Length && data.position < data.buffer.Length
      requires codes as object != data && codes.buffer as object != data.buffer
      requires codes !in pair.Repr() && codes.buffer !in pair.Repr() && data !in pair.Repr() && data.buffer !in pair.Repr()
      modifies this, pair.history.table, pair.first.table, pair.first.usage, pair.second.table, pair.second.usage
      modifies codes, codes.buffer, data, data.buffer
      ensures Valid()
      ensures var (s, code) := EncodeCycle(pair.cfg, old(State()), cycle, ip);
              State() == s && id == code.id &&
              codes.buffer[..] == old(codes.buffer[..])[old(codes.position) := id] &&
              codes.position == old(codes.position) + 1 &&
              (code.datum.Some? ==> data.buffer[..] == old(data.buffer[..])[old(data.position) := code.datum.value] &&
                                    data.position == old(data.position) + 1) &&
              (code.datum.None? ==> data.buffer[..] == old(data.buffer[..]) && data.position == old(data.position))
    {
      var ctx, stride := Predict(cycle, ip);
      id := EvaluateContext(codes, data, ctx, End(pair.cfg), stride);
    }

    /** The predictor side of encodeCycle: the context _evaluateContext
        writes out, and the stride it writes for an unpredicted value. */
    method Predict(cycle: Word, ip: Word) returns (ctx: Context, stride: Word)
      requires Valid() && this !in pair.Repr()
      modifies this, pair.history.table, pair.first.table, pair.first.usage, pair.second.table, pair.second.usage
      ensures Valid() && (IsPredicted(ctx) ==> ctx.predictorId < End(pair.cfg))
      ensures (State(), Evaluate(ctx, End(pair.cfg), stride)) == EncodeCycle(pair.cfg, old(State()), cycle, ip)
    {
      stride := Minus(cycle, reference);
      ctx := pair.Observe(Plus(stride, ip));
      reference := cycle;
    }

    /** decodeCycle: reads the next emission and moves to DecodeCycle of
        the old state. */
    method Decode(codes: Cursor<PredictorId>, data: Cursor<Word>, ip: Word) returns (cycle: Word)
      requires Valid() && this !in pair.Repr()
      requires codes.position < codes.buffer.Length && data.position <= data.buffer.Length
      requires codes.buffer[codes.position] <= End(pair.cfg)
      requires codes.buffer[codes.position] == End(pair.cfg) ==> data.position < data.buffer.Length
      requires codes as object != data
      requires codes !in pair.Repr() && codes.buffer !in pair.Repr() && data !in pair.Repr() && data.buffer !in pair.Repr()
      modifies this, pair.history.table, pair.first.table, pair.second.table, codes, data
      ensures Valid()
      ensures var read := ReadCoded(codes.buffer[..], data.buffer[..], old(codes.position), old(data.position), End(pair.cfg));
              read.Some? && read.value.1 == data.position && codes.position == old(codes.position) + 1 &&
              (State(), cycle) == DecodeCycle(pair.cfg, old(State()), read.value.0, ip)
    {
      var code := ReadNext(codes, data, End(pair.cfg));
      cycle := Replay(code, ip);
    }

    /** The predictor side of decodeCycle, once the emission is read. */
    method Replay(code: Coded, ip: Word) returns (cycle: Word)
      requires Valid() && this !in pair.Repr() && WellCoded(code, End(pair.cfg))
      modifies this, pair.history.table, pair.first.table, pair.second.table
      ensures Valid() && (State(), cycle) == DecodeCycle(pair.cfg, old(State()), code, ip)
    {
      var stride, update;
      if code.id < End(pair.cfg) {
        update := pair.GetValueOf(code.id);
        stride := Minus(update, ip);
      } else {
        stride := code.datum.value;
        update := Plus(stride, ip);
      }
      pair.Learn(update);
      reference := Plus(reference, stride);
      cycle := reference;
    }

    /** setCycleCount. */
    method SetCycleCount(cycleCount: Word)
      requires Valid() && this !in pair.Repr()
      modifies this
      ensures Valid() && State() == WithReference(old(State()), cycleCount)
    {
      reference := cycleCount;
    }
  }
}
