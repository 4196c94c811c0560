/** The pair of finite context method predictors that the VPC4 compound
    predictors put over one shared history
    (simutrace/storageserver/simtrace/VPC4/IpPredictor.h,
    CyclePredictor.h and ValuePredictor.h): a first-order predictor whose
    ids come first and a higher-order one whose ids follow. Both look at a
    value in turn with one context, both push it into their current line,
    and the history moves on separately. */
module FcmPairs {
  import opened FcmHistories
  import opened FcmPredictors

  /** The two predictors' shapes and the shared history's geometry: the
      log2 of its number of rows, its hash size and its order. */
  datatype PairConfig = PairConfig(first: Shape, second: Shape, tableSize: nat, hashSize: nat, order: nat)

  /** The ids of the two predictors are 0 .. End - 1 without gaps, and both
      read slots the history has. */
  predicate PairOk(c: PairConfig)
  {
    ShapeOk(c.first) && ShapeOk(c.second) && c.first.idBase == 0 &&
    c.second.idBase as int == c.first.lineLength &&
    HashSize(c.hashSize) && c.first.order <= c.order && c.second.order <= c.order
  }

  /** The first id after the pair's, the NotPredictedId of a compound
      predictor made of this pair alone. */
  function End(c: PairConfig): (e: PredictorId)
    requires PairOk(c)
    ensures forall id: PredictorId :: PairOwns(c, id) <==> id < e
  {
    c.second.idBase + c.second.lineLength as PredictorId
  }

  predicate PairOwns(c: PairConfig, id: PredictorId)
  {
    Owns(c.first, id) || Owns(c.second, id)
  }

  datatype Pair = Pair(history: HistoryState, first: Fcm, second: Fcm)

  ghost predicate PairShaped(c: PairConfig, p: Pair)
  {
    PairOk(c) && HistoryShaped(p.history, Pow2(c.tableSize), c.order) &&
    FcmShaped(c.first, p.first) && FcmShaped(c.second, p.second)
  }

  /** Two pairs agree on everything a decoder reads: the history and the
      value tables. Usage counts only steer which correct id an encoder
      picks. */
  predicate Agree(a: Pair, b: Pair)
  {
    a.history == b.history && a.first.table == b.first.table && a.second.table == b.second.table
  }

  /** update(value) of both predictors. */
  function PairUpdate(c: PairConfig, p: Pair, v: Word): (r: Pair)
    requires PairShaped(c, p)
    ensures PairShaped(c, r) && r.history == p.history
    ensures r.first.usage == p.first.usage && r.second.usage == p.second.usage
  {
    HistoryShapedFits(c, p);
    Pair(p.history, UpdateFcm(c.first, p.first, p.history, v), UpdateFcm(c.second, p.second, p.history, v))
  }

  /** predictValue of the first predictor and then of the second, on one
      context: the context after both, and the pair with both tables
      updated exactly as update(value) updates them. */
  function PairPredict(c: PairConfig, p: Pair, ctx: Context, v: Word): (r: (Context, Pair))
    requires PairShaped(c, p)
    ensures r.1 == PairUpdate(c, p, v)
  {
    HistoryShapedFits(c, p);
    var (c1, f1) := Predict(c.first, p.first, p.history, ctx, v);
    var (c2, f2) := Predict(c.second, p.second, p.history, c1, v);
    UpdateAgrees(c.first, p.first, p.history, ctx, v);
    UpdateAgrees(c.second, p.second, p.history, c1, v);
    (c2, Pair(p.history, f1, f2))
  }

  /** getValue(id) of the predictor that owns id. */
  function PairGet(c: PairConfig, p: Pair, id: PredictorId): Word
    requires PairShaped(c, p) && PairOwns(c, id)
  {
    HistoryShapedFits(c, p);
    if id < c.second.idBase then GetValue(c.first, p.first, p.history, id)
    else GetValue(c.second, p.second, p.history, id)
  }

  /** incrementUsageCount on the predictor that owns the context's id, if
      either does. */
  function PairCredit(c: PairConfig, p: Pair, ctx: Context): (r: Pair)
    requires PairShaped(c, p)
    ensures PairShaped(c, r) && Agree(r, p)
  {
    if Owns(c.first, ctx.predictorId) then p.(first := IncrementUsage(c.first, p.first, ctx.predictorId))
    else if Owns(c.second, ctx.predictorId) then p.(second := IncrementUsage(c.second, p.second, ctx.predictorId))
    else p
  }

  /** update(value) of the shared history. */
  function HistoryStep(c: PairConfig, p: Pair, v: Word): (r: Pair)
    requires PairShaped(c, p)
    ensures PairShaped(c, r) && r.first == p.first && r.second == p.second
  {
    p.(history := HistoryUpdate(p.history, c.hashSize, v))
  }

  /** setKey(key) of the shared history. */
  function PairSetKey(c: PairConfig, p: Pair, index: nat): (r: Pair)
    requires PairShaped(c, p) && index < Pow2(c.tableSize)
    ensures PairShaped(c, r) && r.history.index == index
  {
    p.(history := p.history.(index := index))
  }

  /** One encoding step of a compound predictor made of the pair alone:
      both predictors look at v from a fresh context, the history takes v,
      and the predictor that named v, if any, is credited. The context is
      the one _evaluateContext then writes out. */
  function EncodeStep(c: PairConfig, p: Pair, v: Word): (r: (Context, Pair))
    requires PairShaped(c, p)
    ensures PairShaped(c, r.1) && (IsPredicted(r.0) <==> PairOwns(c, r.0.predictorId))
  {
    var (ctx, p1) := PairPredict(c, p, NewContext(), v);
    PairPredicted(c, p, NewContext(), v);
    (ctx, PairCredit(c, HistoryStep(c, p1, v), ctx))
  }

  /** The matching decoding step once v is known: both predictors take v,
      then the history. */
  function DecodeStep(c: PairConfig, p: Pair, v: Word): (r: Pair)
    requires PairShaped(c, p)
    ensures PairShaped(c, r)
  {
    HistoryStep(c, PairUpdate(c, p, v), v)
  }

  lemma HistoryShapedFits(c: PairConfig, p: Pair)
    requires PairShaped(c, p)
    ensures HistoryFits(c.first, p.history) && HistoryFits(c.second, p.history)
  {
    assert |p.history.table[p.history.index]| == c.order;
  }

  /** What the pair predicts for a context that neither predictor owns:
      it names one of its ids exactly when one of the two current lines
      holds v with a usage count at least the context's, the id it names
      then gets v back, and otherwise the context passes through. */
  lemma PairPredicted(c: PairConfig, p: Pair, ctx: Context, v: Word)
    requires PairShaped(c, p) && !PairOwns(c, ctx.predictorId)
    ensures HistoryFits(c.first, p.history) && HistoryFits(c.second, p.history)
    ensures var r := PairPredict(c, p, ctx, v).0;
            var line1 := p.first.table[Row(c.first, p.history)];
            var line2 := p.second.table[Row(c.second, p.history)];
            (PairOwns(c, r.predictorId) <==>
               (exists j :: 0 <= j < c.first.lineLength && line1[j] == v && p.first.usage[j] >= ctx.usageCount) ||
               (exists j :: 0 <= j < c.second.lineLength && line2[j] == v && p.second.usage[j] >= ctx.usageCount)) &&
            (PairOwns(c, r.predictorId) ==> PairGet(c, p, r.predictorId) == v && r.usageCount >= ctx.usageCount) &&
            (!PairOwns(c, r.predictorId) ==> r == ctx)
  {
    HistoryShapedFits(c, p);
    var h := p.history;
    var (c1, f1) := Predict(c.first, p.first, h, ctx, v);
    PredictedValue(c.first, p.first, h, ctx, v);
    if Owns(c.first, c1.predictorId) {
      PredictOwnsOrKeeps(c.second, p.second, h, c1, v);
      var c2 := Predict(c.second, p.second, h, c1, v).0;
      if c2 != c1 {
        PredictedValue(c.second, p.second, h, c1, v);
      }
    } else {
      PredictedValue(c.second, p.second, h, c1, v);
    }
  }

  /** Agreeing pairs give the same values and update to agreeing pairs. */
  lemma AgreeStep(c: PairConfig, a: Pair, b: Pair, v: Word)
    requires PairShaped(c, a) && PairShaped(c, b) && Agree(a, b)
    ensures forall id :: PairOwns(c, id) ==> PairGet(c, a, id) == PairGet(c, b, id)
    ensures Agree(PairUpdate(c, a, v), PairUpdate(c, b, v))
    ensures Agree(HistoryStep(c, a, v), HistoryStep(c, b, v))
  {
  }

  /** From agreeing pairs, the id the encoding step emits names v on the
      decoding side, and the decoding step with v leaves the pairs agreeing
      again. */
  lemma StepsAgree(c: PairConfig, a: Pair, b: Pair, v: Word)
    requires PairShaped(c, a) && PairShaped(c, b) && Agree(a, b)
    ensures var (ctx, a') := EncodeStep(c, a, v);
            (IsPredicted(ctx) ==> PairGet(c, b, ctx.predictorId) == v) && Agree(a', DecodeStep(c, b, v))
  {
    PairPredicted(c, a, NewContext(), v);
    AgreeStep(c, a, b, v);
    AgreeStep(c, PairUpdate(c, a, v), PairUpdate(c, b, v), v);
  }

  /** The state of a new pair: every history slot zero, every line the
      initial line, and the usage counts the leftovers with the first one
      cleared. */
  function InitialPair(c: PairConfig, leftover1: seq<nat>, leftover2: seq<nat>): (p: Pair)
    requires PairOk(c) && |leftover1| == c.first.lineLength && |leftover2| == c.second.lineLength
    ensures PairShaped(c, p)
  {
    Pair(InitialHistory(c.tableSize, c.order), InitialFcm(c.first, leftover1), InitialFcm(c.second, leftover2))
  }

  /** The shared history and the two predictors over it, which the
      compound predictors hold as three fields. */
  class FcmPair {
    const cfg: PairConfig
    const history: History
    const first: FcmPredictor
    const second: FcmPredictor

    ghost function Repr(): set<object>
    {
      {history, history.table, first.table, first.usage, second.table, second.usage}
    }

    ghost predicate Valid()
      reads Repr()
      ensures Valid() ==> PairShaped(cfg, State())
    {
      PairOk(cfg) && history.Valid() && history.tableSize == cfg.tableSize &&
      history.hashSize == cfg.hashSize && history.order == cfg.order &&
      first.history == history && second.history == history &&
      first.shape == cfg.first && second.shape == cfg.second &&
      first.Valid() && second.Valid() && first.table != second.table && first.usage != second.usage
    }

    ghost function State(): Pair
      reads Repr()
    {
      Pair(history.State(), first.State(), second.State())
    }

    /** A zeroed history and two fresh predictors over it. */
    constructor (cfg: PairConfig, leftover1: seq<nat>, leftover2: seq<nat>)
      requires PairOk(cfg) && |leftover1| == cfg.first.lineLength && |leftover2| == cfg.second.lineLength
      ensures Valid() && this.cfg == cfg && fresh(Repr())
      ensures State() == InitialPair(cfg, leftover1, leftover2)
    {
      this.cfg := cfg;
      var h := new History(cfg.tableSize, cfg.hashSize, cfg.order);
      history := h;
      first := new FcmPredictor(cfg.first, h, leftover1);
      second := new FcmPredictor(cfg.second, h, leftover2);
    }

    /** predictValue of both predictors on one context. */
    method PredictValue(ctx: Context, v: Word) returns (r: Context)
      requires Valid()
      modifies first.table, second.table
      ensures Valid() && (r, State()) == PairPredict(cfg, old(State()), ctx, v)
    {
      r := first.PredictValue(ctx, v);
      r := second.PredictValue(r, v);
    }

    /** An encoding step on v: both predictions, the history update and
        the credit; the context is the one _evaluateContext writes out. */
    method Observe(v: Word) returns (ctx: Context)
      requires Valid()
      modifies history.table, first.table, first.usage, second.table, second.usage
      ensures Valid() && (ctx, State()) == EncodeStep(cfg, old(State()), v)
    {
      ghost var s0 := State();
      PairPredicted(cfg, s0, NewContext(), v);
      ctx := PredictValue(NewContext(), v);
      UpdateHistory(v);
      if IsPredicted(ctx) {
        Credit(ctx);
      }
    }

    /** A decoding step once v is known: both predictors take v, then
        the history. */
    method Learn(v: Word)
      requires Valid()
      modifies history.table, first.table, second.table
      ensures Valid() && State() == DecodeStep(cfg, old(State()), v)
    {
      Update(v);
      UpdateHistory(v);
    }

    /** predictValue of both predictors on one context, then update of
        the shared history. */
    method Look(ctx: Context, v: Word) returns (r: Context)
      requires Valid()
      modifies history.table, first.table, second.table
      ensures Valid() && r == PairPredict(cfg, old(State()), ctx, v).0
      ensures State() == HistoryStep(cfg, PairPredict(cfg, old(State()), ctx, v).1, v)
    {
      r := PredictValue(ctx, v);
      UpdateHistory(v);
    }

    /** getValue(id) of the predictor whose ids include id. */
    function GetValueOf(id: PredictorId): (v: Word)
      reads Repr()
      requires Valid() && PairOwns(cfg, id)
      ensures v == PairGet(cfg, State(), id)
    {
      if id < cfg.second.idBase then first.GetValueOf(id) else second.GetValueOf(id)
    }

    /** update(value) of both predictors. */
    method Update(v: Word)
      requires Valid()
      modifies first.table, second.table
      ensures Valid() && State() == PairUpdate(cfg, old(State()), v)
    {
      first.Update(v);
      second.Update(v);
    }

    /** The usage count increment of _evaluateContext for a context one
        of the two predictors owns. */
    method Credit(ctx: Context)
      requires Valid()
      modifies first.usage, second.usage
      ensures Valid() && State() == PairCredit(cfg, old(State()), ctx)
    {
      if Owns(cfg.first, ctx.predictorId) {
        first.IncrementUsageCount(ctx.predictorId);
      } else if Owns(cfg.second, ctx.predictorId) {
        second.IncrementUsageCount(ctx.predictorId);
      }
    }

    /** update(value) of the shared history. */
    method UpdateHistory(v: Word)
      requires Valid()
      modifies history.table
      ensures Valid() && State() == HistoryStep(cfg, old(State()), v)
    {
      history.Update(v);
    }

    /** setKey(key) of the shared history. */
    method SetKey(key: Word)
      requires Valid()
      modifies history
      ensures Valid() && State() == PairSetKey(cfg, old(State()), KeyIndex(key, cfg.tableSize))
    {
      history.SetKey(key);
    }
  }
}
