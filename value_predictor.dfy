/** The value predictor of VPC4
    (simutrace/storageserver/simtrace/VPC4/ValuePredictor.h): under a key,
    a first-order and a third-order differential finite context method
    predictor (DFCM) over one shared history predict the stride from the
    most recent value, a last-four-value predictor (L4V) and a first-order
    finite context method predictor (FCM) over a private history predict
    the value itself. Ids 0-3 belong to the DFCMs, 4-7 to the L4V, 8-9 to
    the FCM, and id 10 says that the value is in the data buffer. Values
    and strides are 64-bit unsigned integers: the arithmetic wraps
    around. The functions take the configuration as a parameter; the class
    pins it to ValueConfig. */
module ValuePrediction {
  import opened Wrappers
  import opened FcmHistories
  import opened FcmPredictors
  import opened FcmPairs
  import opened LastNValue
  import opened Compound

  /** The geometry of the five parts: the DFCM pair and its shared
      history, the L4V shape, the FCM shape, and the log2 of the rows and
      the hash size of the FCM's private history. */
  datatype Config = Config(dfcm: PairConfig, last: Shape, fcm: Shape, fcmTableSize: nat, fcmHashSize: nat)

  /** KeyedFcmHistory<T, K, 16, 17, 3> under FiniteContextMethodPredictor
      <T, 17, 1, 2, ...> at idBase 0 and <T, 19, 3, 2, ...> at idBase 2;
      KeyedLastNValuePredictor<T, K, 16, 4> at idBase 4; and
      KeyedFcmHistory<T, K, 16, 19, 1> under FiniteContextMethodPredictor
      <T, 19, 1, 2, ...> at idBase 8. */
  const ValueConfig := Config(PairConfig(Shape(0, 2, 17, 1), Shape(2, 2, 19, 3), 16, 17, 3),
                              Shape(4, 4, 16, 1), Shape(8, 2, 19, 1), 16, 19)

  /** The id ranges follow each other without gaps: DFCMs, L4V, FCM. The
      L4V and the FCM read the first slot of a one-slot history. */
  predicate ConfigOk(c: Config)
  {
    PairOk(c.dfcm) && ShapeOk(c.last) && c.last.order == 1 && c.last.idBase == End(c.dfcm) &&
    ShapeOk(c.fcm) && c.fcm.order == 1 && c.fcm.idBase as int == c.last.idBase as int + c.last.lineLength &&
    HashSize(c.fcmHashSize)
  }

  /** NotPredictedId, the first id after the FCM's. */
  function NotPredictedId(c: Config): (np: PredictorId)
    requires ConfigOk(c)
    ensures np as int == c.fcm.idBase as int + c.fcm.lineLength
  {
    c.fcm.idBase + c.fcm.lineLength as PredictorId
  }

  /** The value configuration is consistent, and its ids split where
      _getValue tests them: below 2 the first-order DFCM, below 4 the
      third-order one, below 8 the L4V, below 10 the FCM; 10 is
      NotPredictedId. */
  lemma ValueConfigIds()
    ensures ConfigOk(ValueConfig) && NotPredictedId(ValueConfig) == 10
    ensures forall id: PredictorId :: Owns(ValueConfig.dfcm.first, id) <==> id < 2
    ensures forall id: PredictorId :: Owns(ValueConfig.dfcm.second, id) <==> 2 <= id < 4
    ensures forall id: PredictorId :: Owns(ValueConfig.last, id) <==> 4 <= id < 8
    ensures forall id: PredictorId :: Owns(ValueConfig.fcm, id) <==> 8 <= id < 10
  {
  }

  /** The DFCM pair with its shared history, the FCM's private history,
      the FCM, the L4V's one-slot history and the L4V. */
  datatype ValueState = ValueState(dfcm: Pair, fcmHistory: HistoryState, fcm: Fcm, lastHistory: HistoryState, last: Fcm)

  ghost predicate ValueShaped(c: Config, s: ValueState)
  {
    ConfigOk(c) && PairShaped(c.dfcm, s.dfcm) &&
    HistoryShaped(s.fcmHistory, Pow2(c.fcmTableSize), 1) && FcmShaped(c.fcm, s.fcm) &&
    HistoryShaped(s.lastHistory, 1, 1) && FcmShaped(c.last, s.last)
  }

  /** Two states agree on everything a decoder reads: histories and value
      tables, not the usage counts. */
  predicate Agree(a: ValueState, b: ValueState)
  {
    FcmPairs.Agree(a.dfcm, b.dfcm) && a.fcmHistory == b.fcmHistory && a.fcm.table == b.fcm.table &&
    a.lastHistory == b.lastHistory && a.last.table == b.last.table
  }

  /** _setKey: the shared DFCM history and the FCM history select the
      key's row, and the L4V's history slot takes the key. */
  function SetKeys(c: Config, s: ValueState, key: Word): (r: ValueState)
    requires ValueShaped(c, s)
    ensures ValueShaped(c, r) && r.dfcm.first == s.dfcm.first && r.dfcm.second == s.dfcm.second
    ensures r.fcm == s.fcm && r.last == s.last
    ensures r.dfcm.history.index == KeyIndex(key, c.dfcm.tableSize) && r.fcmHistory.index == KeyIndex(key, c.fcmTableSize)
    ensures Row(c.last, r.lastHistory) == Low32(key) as nat % Pow2(c.last.tableSize)
  {
    KeySelectsRow(c.last, s.lastHistory, key);
    ValueState(PairSetKey(c.dfcm, s.dfcm, KeyIndex(key, c.dfcm.tableSize)),
               s.fcmHistory.(index := KeyIndex(key, c.fcmTableSize)), s.fcm,
               SetKeyState(s.lastHistory, key), s.last)
  }

  /** getMostRecentValue of the L4V. */
  function Latest(c: Config, s: ValueState): Word
    requires ValueShaped(c, s)
  {
    MostRecent(c.last, s.last, s.lastHistory)
  }

  /** _getValue for a predicted id: a DFCM's stride plus the most recent
      value, or the value the L4V or the FCM holds under the id. */
  function ValueGet(c: Config, s: ValueState, id: PredictorId): Word
    requires ValueShaped(c, s) && id < NotPredictedId(c)
  {
    if id < c.last.idBase then Plus(PairGet(c.dfcm, s.dfcm, id), Latest(c, s))
    else if id < c.fcm.idBase then GetValue(c.last, s.last, s.lastHistory, id)
    else GetValue(c.fcm, s.fcm, s.fcmHistory, id)
  }

  /** The usage count increment of _evaluateContext, on the predictor
      whose ids include the context's. */
  function Credit(c: Config, s: ValueState, ctx: Context): (r: ValueState)
    requires ValueShaped(c, s)
    ensures ValueShaped(c, r) && Agree(r, s)
  {
    if PairOwns(c.dfcm, ctx.predictorId) then s.(dfcm := PairCredit(c.dfcm, s.dfcm, ctx))
    else if Owns(c.last, ctx.predictorId) then s.(last := IncrementUsage(c.last, s.last, ctx.predictorId))
    else if Owns(c.fcm, ctx.predictorId) then s.(fcm := IncrementUsage(c.fcm, s.fcm, ctx.predictorId))
    else s
  }

  /** The predictor side of encodeValue once the key is set: the DFCMs
      look at the stride from the most recent value, the L4V and the FCM
      at the value; then the DFCM history takes the stride, the FCM history
      the value, and the predictor that named the value is credited. */
  function Observe(c: Config, s: ValueState, value: Word): (r: (Context, ValueState))
    requires ValueShaped(c, s)
    ensures ValueShaped(c, r.1)
  {
    HistoryShapedFits(c.dfcm, s.dfcm);
    var stride := Minus(value, Latest(c, s));
    var dfcm := PairPredict(c.dfcm, s.dfcm, NewContext(), stride);
    var last := Predict(c.last, s.last, s.lastHistory, dfcm.0, value);
    var fcm := Predict(c.fcm, s.fcm, s.fcmHistory, last.0, value);
    UpdateAgrees(c.last, s.last, s.lastHistory, dfcm.0, value);
    UpdateAgrees(c.fcm, s.fcm, s.fcmHistory, last.0, value);
    var updated := ValueState(HistoryStep(c.dfcm, dfcm.1, stride), HistoryUpdate(s.fcmHistory, c.fcmHashSize, value),
                              fcm.1, s.lastHistory, last.1);
    (fcm.0, Credit(c, updated, fcm.0))
  }

  /** The predictor side of decodeValue once the value is known: the
      DFCMs take the stride, the L4V and the FCM the value, then the DFCM
      history the stride and the FCM history the value. */
  function Learn(c: Config, s: ValueState, value: Word): (r: ValueState)
    requires ValueShaped(c, s)
    ensures ValueShaped(c, r)
  {
    HistoryShapedFits(c.dfcm, s.dfcm);
    var stride := Minus(value, Latest(c, s));
    ValueState(DecodeStep(c.dfcm, s.dfcm, stride), HistoryUpdate(s.fcmHistory, c.fcmHashSize, value),
               UpdateFcm(c.fcm, s.fcm, s.fcmHistory, value), s.lastHistory,
               UpdateFcm(c.last, s.last, s.lastHistory, value))
  }

  /** encodeValue: set the key, let the predictors look at the value, and
      emit the id of the one that named it or the value itself. */
  function EncodeValue(c: Config, s: ValueState, key: Word, value: Word): (r: (ValueState, Coded))
    requires ValueShaped(c, s)
    ensures ValueShaped(c, r.0) && WellCoded(r.1, NotPredictedId(c))
  {
    var step := Observe(c, SetKeys(c, s, key), value);
    ObservedValue(c, SetKeys(c, s, key), value);
    (step.1, Evaluate(step.0, NotPredictedId(c), value))
  }

  /** _getValue: the value the id names, or the datum. */
  function GetResult(c: Config, s: ValueState, code: Coded): Word
    requires ValueShaped(c, s) && WellCoded(code, NotPredictedId(c))
  {
    if code.id < NotPredictedId(c) then ValueGet(c, s, code.id) else code.datum.value
  }

  /** decodeValue: set the key, get the value, update the predictors. */
  function DecodeValue(c: Config, s: ValueState, key: Word, code: Coded): (r: (ValueState, Word))
    requires ValueShaped(c, s) && WellCoded(code, NotPredictedId(c))
    ensures ValueShaped(c, r.0)
  {
    var k := SetKeys(c, s, key);
    var value := GetResult(c, k, code);
    (Learn(c, k, value), value)
  }

  /** The context the DFCMs leave, looking at the stride from the most
      recent value, names none of them or names one whose stride plus the
      most recent value is the value. */
  lemma StrideObserved(c: Config, s: ValueState, value: Word)
    requires ValueShaped(c, s)
    ensures var ctx := PairPredict(c.dfcm, s.dfcm, NewContext(), Minus(value, Latest(c, s))).0;
            (PairOwns(c.dfcm, ctx.predictorId) ==> ctx.predictorId < NotPredictedId(c) && ValueGet(c, s, ctx.predictorId) == value) &&
            (!PairOwns(c.dfcm, ctx.predictorId) ==> ctx == NewContext())
  {
    var latest := Latest(c, s);
    var stride := Minus(value, latest);
    PairPredicted(c.dfcm, s.dfcm, NewContext(), stride);
    var ctx := PairPredict(c.dfcm, s.dfcm, NewContext(), stride).0;
    if PairOwns(c.dfcm, ctx.predictorId) {
      assert ValueGet(c, s, ctx.predictorId) == Plus(stride, latest);
      WrapAround(value, latest);
    }
  }

  /** The context the predictors leave either names none of them or names
      one whose value on the state they looked at is the value. */
  lemma ObservedValue(c: Config, s: ValueState, value: Word)
    requires ValueShaped(c, s)
    ensures var ctx := Observe(c, s, value).0;
            (IsPredicted(ctx) ==> ctx.predictorId < NotPredictedId(c) && ValueGet(c, s, ctx.predictorId) == value) &&
            (!IsPredicted(ctx) ==> ctx == NewContext())
  {
    HistoryShapedFits(c.dfcm, s.dfcm);
    var stride := Minus(value, Latest(c, s));
    var c1 := PairPredict(c.dfcm, s.dfcm, NewContext(), stride).0;
    StrideObserved(c, s, value);
    var c2 := Predict(c.last, s.last, s.lastHistory, c1, value).0;
    PredictedValue(c.last, s.last, s.lastHistory, c1, value);
    PredictedValue(c.fcm, s.fcm, s.fcmHistory, c2, value);
    ObserveContext(c, s, value);
  }

  /** The context Observe leaves is the one the three predictors pass on. */
  lemma ObserveContext(c: Config, s: ValueState, value: Word)
    requires ValueShaped(c, s)
    ensures HistoryFits(c.dfcm.first, s.dfcm.history) && HistoryFits(c.dfcm.second, s.dfcm.history)
    ensures var c1 := PairPredict(c.dfcm, s.dfcm, NewContext(), Minus(value, Latest(c, s))).0;
            Observe(c, s, value).0 == Predict(c.fcm, s.fcm, s.fcmHistory, Predict(c.last, s.last, s.lastHistory, c1, value).0, value).0
  {
    HistoryShapedFits(c.dfcm, s.dfcm);
  }

  /** From agreeing states, the id the encoder emits names the value on
      the decoding side, and learning the value leaves the two agreeing. */
  lemma ObserveLearn(c: Config, a: ValueState, b: ValueState, value: Word)
    requires ValueShaped(c, a) && ValueShaped(c, b) && Agree(a, b)
    ensures var (ctx, a') := Observe(c, a, value);
            (IsPredicted(ctx) ==> ctx.predictorId < NotPredictedId(c) && ValueGet(c, b, ctx.predictorId) == value) &&
            Agree(a', Learn(c, b, value))
  {
    HistoryShapedFits(c.dfcm, a.dfcm);
    ObservedValue(c, a, value);
    var stride := Minus(value, Latest(c, a));
    AgreeStep(c.dfcm, a.dfcm, b.dfcm, stride);
    AgreeStep(c.dfcm, PairUpdate(c.dfcm, a.dfcm, stride), PairUpdate(c.dfcm, b.dfcm, stride), stride);
  }

  /** From agreeing states, decodeValue under the same key after
      encodeValue yields the value, and the two sides agree again. */
  lemma EncodeDecode(c: Config, a: ValueState, b: ValueState, key: Word, value: Word)
    requires ValueShaped(c, a) && ValueShaped(c, b) && Agree(a, b)
    ensures var (a', code) := EncodeValue(c, a, key, value);
            var (b', x) := DecodeValue(c, b, key, code);
            x == value && Agree(a', b')
  {
    ObserveLearn(c, SetKeys(c, a, key), SetKeys(c, b, key), value);
  }

  /** Encoding a sequence of (key, value) events. */
  function EncodeValues(c: Config, s: ValueState, events: seq<(Word, Word)>): (r: (ValueState, seq<Coded>))
    requires ValueShaped(c, s)
    ensures ValueShaped(c, r.0) && |r.1| == |events|
    ensures forall k :: 0 <= k < |r.1| ==> WellCoded(r.1[k], NotPredictedId(c))
  {
    if |events| == 0 then (s, [])
    else
      var init := EncodeValues(c, s, events[..|events| - 1]);
      var last := EncodeValue(c, init.0, events[|events| - 1].0, events[|events| - 1].1);
      (last.0, init.1 + [last.1])
  }

  /** Decoding a sequence of emissions, each under the key of its event. */
  function DecodeValues(c: Config, s: ValueState, keys: seq<Word>, codes: seq<Coded>): (r: (ValueState, seq<Word>))
    requires ValueShaped(c, s) && |keys| == |codes|
    requires forall k :: 0 <= k < |codes| ==> WellCoded(codes[k], NotPredictedId(c))
    ensures ValueShaped(c, r.0) && |r.1| == |codes|
  {
    if |codes| == 0 then (s, [])
    else
      var (s1, values) := DecodeValues(c, s, keys[..|keys| - 1], codes[..|codes| - 1]);
      var (s2, value) := DecodeValue(c, s1, keys[|keys| - 1], codes[|codes| - 1]);
      (s2, values + [value])
  }

  /** The keys of a sequence of events. */
  function Keys(events: seq<(Word, Word)>): (r: seq<Word>)
    ensures |r| == |events| && forall k :: 0 <= k < |events| ==> r[k] == events[k].0
  {
    seq(|events|, k requires 0 <= k < |events| => events[k].0)
  }

  /** The values of a sequence of events. */
  function Values(events: seq<(Word, Word)>): (r: seq<Word>)
    ensures |r| == |events| && forall k :: 0 <= k < |events| ==> r[k] == events[k].1
  {
    seq(|events|, k requires 0 <= k < |events| => events[k].1)
  }

  /** Encoding one more event appends one emission. */
  lemma EncodeValuesSnoc(c: Config, s: ValueState, events: seq<(Word, Word)>, e: (Word, Word))
    requires ValueShaped(c, s)
    ensures var (s1, codes) := EncodeValues(c, s, events);
            var (s2, code) := EncodeValue(c, s1, e.0, e.1);
            EncodeValues(c, s, events + [e]) == (s2, codes + [code])
  {
    var es := events + [e];
    assert es[..|es| - 1] == events && es[|es| - 1] == e;
  }

  /** Decoding one more emission appends one value. */
  lemma DecodeValuesSnoc(c: Config, s: ValueState, keys: seq<Word>, codes: seq<Coded>, key: Word, code: Coded)
    requires ValueShaped(c, s) && |keys| == |codes| && WellCoded(code, NotPredictedId(c))
    requires forall k :: 0 <= k < |codes| ==> WellCoded(codes[k], NotPredictedId(c))
    ensures var (s1, values) := DecodeValues(c, s, keys, codes);
            var (s2, value) := DecodeValue(c, s1, key, code);
            DecodeValues(c, s, keys + [key], codes + [code]) == (s2, values + [value])
  {
    assert (keys + [key])[..|keys|] == keys;
    assert (codes + [code])[..|codes|] == codes;
  }

  /** A whole stream round-trips: decoding the emissions under the same
      keys gives back the values, and the states agree afterwards. */
  lemma {:induction false} RoundTrip(c: Config, a: ValueState, b: ValueState, events: seq<(Word, Word)>)
    requires ValueShaped(c, a) && ValueShaped(c, b) && Agree(a, b)
    ensures DecodeValues(c, b, Keys(events), EncodeValues(c, a, events).1).1 == Values(events)
    ensures Agree(EncodeValues(c, a, events).0, DecodeValues(c, b, Keys(events), EncodeValues(c, a, events).1).0)
  {
    if |events| > 0 {
      var init, last := events[..|events| - 1], events[|events| - 1];
      assert events == init + [last];
      assert Keys(events) == Keys(init) + [last.0];
      assert Values(events) == Values(init) + [last.1];
      RoundTrip(c, a, b, init);
      var (a1, codes) := EncodeValues(c, a, init);
      var (b1, xs) := DecodeValues(c, b, Keys(init), codes);
      EncodeValuesSnoc(c, a, init, last);
      var code := EncodeValue(c, a1, last.0, last.1).1;
      DecodeValuesSnoc(c, b, Keys(init), codes, last.0, code);
      EncodeDecode(c, a1, b1, last.0, last.1);
    }
  }

  /** The state of a new value predictor: the new DFCM pair, a zeroed FCM
      history and L4V history slot, and the initial lines, with usage
      counts from the leftovers but for the first of each predictor. */
  function InitialValue(c: Config, leftover1: seq<nat>, leftover3: seq<nat>, leftoverLast: seq<nat>, leftoverFcm: seq<nat>)
    : (s: ValueState)
    requires ConfigOk(c) && |leftover1| == c.dfcm.first.lineLength && |leftover3| == c.dfcm.second.lineLength
    requires |leftoverLast| == c.last.lineLength && |leftoverFcm| == c.fcm.lineLength
    ensures ValueShaped(c, s)
  {
    ValueState(InitialPair(c.dfcm, leftover1, leftover3),
               InitialHistory(c.fcmTableSize, 1), InitialFcm(c.fcm, leftoverFcm),
               InitialHistory(0, 1), InitialFcm(c.last, leftoverLast))
  }

  /** The FCM of the value predictor with its private history, which the
      source holds as two fields. */
  class KeyedFcm {
    const history: History
    const predictor: FcmPredictor

    ghost function Repr(): set<object>
    {
      {history, history.table, predictor.table, predictor.usage}
    }

    ghost predicate Valid()
      reads Repr()
    {
      history.Valid() && predictor.history == history && predictor.Valid() && history.order == 1 &&
      predictor.shape.order == 1 && HashSize(history.hashSize)
    }

    /** KeyedFcmHistory<T, K, tableSize, hashSize, 1>() and a predictor of
        the given shape over it. */
    constructor (shape: Shape, tableSize: nat, hashSize: nat, leftover: seq<nat>)
      requires ShapeOk(shape) && shape.order == 1 && HashSize(hashSize) && |leftover| == shape.lineLength
      ensures Valid() && predictor.shape == shape && history.tableSize == tableSize && history.hashSize == hashSize
      ensures history.State() == InitialHistory(tableSize, 1)
      ensures predictor.State() == InitialFcm(shape, leftover)
      ensures fresh(Repr())
    {
      var h := new History(tableSize, hashSize, 1);
      history := h;
      predictor := new FcmPredictor(shape, h, leftover);
    }

    /** predictValue, then update of the history. */
    method Look(ctx: Context, v: Word) returns (r: Context)
      requires Valid()
      modifies history.table, predictor.table
      ensures Valid()
      ensures (r, predictor.State()) == Predict(predictor.shape, old(predictor.State()), old(history.State()), ctx, v)
      ensures history.State() == HistoryUpdate(old(history.State()), history.hashSize, v)
    {
      r := predictor.PredictValue(ctx, v);
      history.Update(v);
    }

    /** update(value) of the predictor, then of the history. */
    method Learn(v: Word)
      requires Valid()
      modifies history.table, predictor.table
      ensures Valid()
      ensures predictor.State() == UpdateFcm(predictor.shape, old(predictor.State()), old(history.State()), v)
      ensures history.State() == HistoryUpdate(old(history.State()), history.hashSize, v)
    {
      predictor.Update(v);
      history.Update(v);
    }
  }

  /** The three parts of a ValuePredictor with configuration c, each over
      objects of its own. */
  method NewParts(c: Config, leftover1: seq<nat>, leftover3: seq<nat>, leftoverLast: seq<nat>, leftoverFcm: seq<nat>)
      returns (d: FcmPair, k: KeyedFcm, l: LastNValuePredictor)
    requires ConfigOk(c) && |leftover1| == c.dfcm.first.lineLength && |leftover3| == c.dfcm.second.lineLength
    requires |leftoverLast| == c.last.lineLength && |leftoverFcm| == c.fcm.lineLength
    ensures d.Valid() && k.Valid() && l.Valid()
    ensures d.Repr() !! k.Repr() && d.Repr() !! l.Repr() && k.Repr() !! l.Repr()
    ensures d.cfg == c.dfcm && k.predictor.shape == c.fcm && l.fcm.shape == c.last
    ensures k.history.tableSize == c.fcmTableSize && k.history.hashSize == c.fcmHashSize
    ensures d.State() == InitialPair(c.dfcm, leftover1, leftover3)
    ensures k.history.State() == InitialHistory(c.fcmTableSize, 1) && k.predictor.State() == InitialFcm(c.fcm, leftoverFcm)
    ensures l.history.State() == InitialHistory(0, 1) && l.fcm.State() == InitialFcm(c.last, leftoverLast)
  {
    l := new LastNValuePredictor(c.last.idBase, c.last.tableSize, c.last.lineLength, leftoverLast);
    k := new KeyedFcm(c.fcm, c.fcmTableSize, c.fcmHashSize, leftoverFcm);
    d := new FcmPair(c.dfcm, leftover1, leftover3);
  }

  /** ValuePredictor: the DFCM pair over its shared history, the FCM over
      its private history, and the L4V. */
  class ValuePredictor {
    const cfg: Config
    const dfcm: FcmPair
    const fcm: KeyedFcm
    const last: LastNValuePredictor

    ghost function Repr(): set<object>
    {
      dfcm.Repr() + fcm.Repr() + last.Repr()
    }

    ghost predicate Valid()
      reads Repr()
      ensures Valid() ==> ValueShaped(cfg, State())
    {
      ConfigOk(cfg) && dfcm.Valid() && fcm.Valid() && last.Valid() &&
      dfcm.Repr() !! fcm.Repr() && dfcm.Repr() !! last.Repr() && fcm.Repr() !! last.Repr() &&
      dfcm.cfg == cfg.dfcm && fcm.predictor.shape == cfg.fcm && last.fcm.shape == cfg.last &&
      fcm.history.tableSize == cfg.fcmTableSize && fcm.history.hashSize == cfg.fcmHashSize
    }

    ghost function State(): ValueState
      reads Repr()
    {
      ValueState(dfcm.State(), fcm.history.State(), fcm.predictor.State(), last.history.State(), last.fcm.State())
    }

    /** ValuePredictor(): the parts with configuration c, which is
        ValueConfig in the source. */
    constructor (c: Config, leftover1: seq<nat>, leftover3: seq<nat>, leftoverLast: seq<nat>, leftoverFcm: seq<nat>)
      requires ConfigOk(c) && |leftover1| == c.dfcm.first.lineLength && |leftover3| == c.dfcm.second.lineLength
      requires |leftoverLast| == c.last.lineLength && |leftoverFcm| == c.fcm.lineLength
      ensures Valid() && cfg == c
      ensures State() == InitialValue(c, leftover1, leftover3, leftoverLast, leftoverFcm)
    {
      var d, k, l := NewParts(c, leftover1, leftover3, leftoverLast, leftoverFcm);
      cfg, last, fcm, dfcm := c, l, k, d;
    }

    /** _setKey(key). */
    method SetKey(key: Word)
      requires Valid()
      modifies dfcm.history, fcm.history, last.history.table
      ensures Valid() && State() == SetKeys(cfg, old(State()), key)
    {
      dfcm.SetKey(key);
      fcm.history.SetKey(key);
      last.SetKey(key);
    }

    /** getMostRecentValue of the L4V. */
    function MostRecentValue(): (v: Word)
      reads Repr()
      requires Valid()
      ensures v == Latest(cfg, State())
    {
      last.GetMostRecentValue()
    }

    /** The predictor side of encodeValue once the key is set. The
        context returned is the one _evaluateContext writes out. The DFCM
        history is updated before the L4V and the FCM look at the value,
        not after as in the source; neither of them reads it. */
    method PredictValue(value: Word) returns (ctx: Context)
      requires Valid()
      modifies dfcm.history.table, dfcm.first.table, dfcm.first.usage, dfcm.second.table, dfcm.second.usage
      modifies fcm.history.table, fcm.predictor.table, fcm.predictor.usage, last.fcm.table, last.fcm.usage
      ensures Valid() && (ctx, State()) == Observe(cfg, old(State()), value)
    {
      var stride := Minus(value, MostRecentValue());
      ctx := LookStride(stride);
      ctx := LookLast(ctx, value);
      ctx := LookFcm(ctx, value);
      IncrementUsageCount(ctx);
    }

    /** The DFCM pair looks at the stride, then its history takes it. */
    method LookStride(stride: Word) returns (ctx: Context)
      requires Valid()
      modifies dfcm.history.table, dfcm.first.table, dfcm.second.table
      ensures Valid()
      ensures var (c, p) := PairPredict(cfg.dfcm, old(State()).dfcm, NewContext(), stride);
              ctx == c && State() == old(State()).(dfcm := HistoryStep(cfg.dfcm, p, stride))
    {
      ctx := dfcm.Look(NewContext(), stride);
    }

    /** The L4V looks at the value. */
    method LookLast(c0: Context, value: Word) returns (ctx: Context)
      requires Valid()
      modifies last.fcm.table
      ensures Valid()
      ensures var (c, l) := Predict(cfg.last, old(State()).last, old(State()).lastHistory, c0, value);
              ctx == c && State() == old(State()).(last := l)
    {
      ctx := last.fcm.PredictValue(c0, value);
    }

    /** The FCM looks at the value, then its history takes it. */
    method LookFcm(c0: Context, value: Word) returns (ctx: Context)
      requires Valid()
      modifies fcm.history.table, fcm.predictor.table
      ensures Valid()
      ensures var (c, f) := Predict(cfg.fcm, old(State()).fcm, old(State()).fcmHistory, c0, value);
              ctx == c &&
              State() == old(State()).(fcm := f, fcmHistory := HistoryUpdate(old(State()).fcmHistory, cfg.fcmHashSize, value))
    {
      ctx := fcm.Look(c0, value);
    }

    /** incrementUsageCount on the predictor whose ids include the
        context's. */
    method IncrementUsageCount(ctx: Context)
      requires Valid()
      modifies dfcm.first.usage, dfcm.second.usage, fcm.predictor.usage, last.fcm.usage
      ensures Valid() && State() == Credit(cfg, old(State()), ctx)
    {
      if PairOwns(cfg.dfcm, ctx.predictorId) {
        dfcm.Credit(ctx);
      } else if Owns(cfg.last, ctx.predictorId) {
        last.fcm.IncrementUsageCount(ctx.predictorId);
      } else if Owns(cfg.fcm, ctx.predictorId) {
        fcm.predictor.IncrementUsageCount(ctx.predictorId);
      }
    }

    /** The update half of decodeValue once the value is known. Each
        part updates its predictors and then its own history; the source
        updates all predictors first, which comes to the same as no part
        reads another's history or tables. */
    method Update(value: Word)
      requires Valid()
      modifies dfcm.history.table, dfcm.first.table, dfcm.second.table, fcm.history.table, fcm.predictor.table, last.fcm.table
      ensures Valid() && State() == Learn(cfg, old(State()), value)
    {
      var stride := Minus(value, MostRecentValue());
      LearnStride(stride);
      LearnLast(value);
      LearnFcm(value);
    }

    /** The DFCM pair and its history take the stride. */
    method LearnStride(stride: Word)
      requires Valid()
      modifies dfcm.history.table, dfcm.first.table, dfcm.second.table
      ensures Valid() && State() == old(State()).(dfcm := DecodeStep(cfg.dfcm, old(State()).dfcm, stride))
    {
      dfcm.Learn(stride);
    }

    /** The L4V takes the value. */
    method LearnLast(value: Word)
      requires Valid()
      modifies last.fcm.table
      ensures Valid() && State() == old(State()).(last := UpdateFcm(cfg.last, old(State()).last, old(State()).lastHistory, value))
    {
      last.fcm.Update(value);
    }

    /** The FCM and its history take the value. */
    method LearnFcm(value: Word)
      requires Valid()
      modifies fcm.history.table, fcm.predictor.table
      ensures Valid()
      ensures State() == old(State()).(fcm := UpdateFcm(cfg.fcm, old(State()).fcm, old(State()).fcmHistory, value),
                                       fcmHistory := HistoryUpdate(old(State()).fcmHistory, cfg.fcmHashSize, value))
    {
      fcm.Learn(value);
    }
  }
}
