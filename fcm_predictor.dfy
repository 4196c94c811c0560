/** The finite context method predictor of the VPC4 compressor
    (simutrace/storageserver/simtrace/VPC4/FiniteContextMethodPredictor.h)
    with the usage counts of its Predictor base and the prediction context
    passed through a chain of predictors
    (simutrace/storageserver/simtrace/VPC4/Predictor.h). The predictor reads
    a hash of the recent inputs from a (possibly shared) keyed history,
    masks it to a row of its value table and keeps in that row the last
    lineLength values that followed the hashed context. */
module FcmPredictors {
  import opened FcmHistories

  /** PredictorId (uint8_t). */
  newtype PredictorId = x: int | 0 <= x < 256

  /** INVALID_PREDICTOR_INDEX: the largest uint8_t. */
  const InvalidPredictorId: PredictorId := 255

  type Line = seq<Word>

  /** PredictionContext: the usage count of the best predictor so far and
      its id. The source also keeps a pointer to the predictor object; a
      context is predicted exactly when that pointer is set, which is
      exactly when the id is valid, and the id ranges of the predictors of
      one compound predictor are disjoint, so the id stands for both. */
  datatype Context = Context(usageCount: nat, predictorId: PredictorId)

  predicate IsPredicted(c: Context)
  {
    c.predictorId != InvalidPredictorId
  }

  /** A fresh context: usage count 0 and no predictor. */
  function NewContext(): (c: Context)
    ensures !IsPredicted(c) && c.usageCount == 0
  {
    Context(0, InvalidPredictorId)
  }

  /** The template parameters of one predictor: the first id it hands
      out, the length of each line, log2 of the number of lines, and the
      history order it reads. */
  datatype Shape = Shape(idBase: PredictorId, lineLength: nat, tableSize: nat, order: nat)

  predicate ShapeOk(s: Shape)
  {
    1 <= s.lineLength && s.idBase as int + s.lineLength < InvalidPredictorId as int && 1 <= s.order
  }

  /** The ids idBase .. idBase + lineLength - 1 belong to the predictor. */
  predicate Owns(s: Shape, id: PredictorId)
  {
    s.idBase <= id && id as int - s.idBase as int < s.lineLength
  }

  /** The line slot an owned id names: id - _idBase. */
  function Slot(s: Shape, id: PredictorId): nat
    requires Owns(s, id)
  {
    id as int - s.idBase as int
  }

  /** The id of slot i: i + _idBase. */
  function IdOf(s: Shape, i: nat): (id: PredictorId)
    requires ShapeOk(s) && i < s.lineLength
    ensures Owns(s, id) && Slot(s, id) == i && id != InvalidPredictorId
  {
    (s.idBase as int + i) as PredictorId
  }

  /** The values w, w + 1, ... of a line of length n. */
  function InitialFrom(w: Word, n: nat): (l: Line)
    ensures |l| == n
    decreases n
  {
    if n == 0 then [] else [w] + InitialFrom(w + 1, n - 1)
  }

  /** A line as _initialize leaves it: entry i holds i, so that the line
      does not offer the same value twice. */
  function InitialLine(n: nat): Line
  {
    InitialFrom(0, n)
  }

  /** An initial line counts up from 0 in steps of one. */
  lemma {:induction false} InitialSteps(w: Word, n: nat)
    ensures n > 0 ==> InitialFrom(w, n)[0] == w
    ensures forall i :: 0 <= i < n - 1 ==> InitialFrom(w, n)[i] + 1 == InitialFrom(w, n)[i + 1]
    decreases n
  {
    if n > 1 {
      InitialSteps(w + 1, n - 1);
      var l, rest := InitialFrom(w, n), InitialFrom(w + 1, n - 1);
      assert l == [w] + rest;
      forall i | 1 <= i < n - 1
        ensures l[i] + 1 == l[i + 1]
      {
        assert l[i] == rest[i - 1] && l[i + 1] == rest[i];
      }
    }
  }

  /** _update on one line: nothing happens when v is already the most
      recent value; otherwise the values move one slot back, the oldest
      drops out and v comes first. */
  function Pushed(line: Line, v: Word): (r: Line)
    requires |line| >= 1
  {
    if line[0] == v then line else [v] + line[..|line| - 1]
  }

  /** After _update the most recent value is v, the length is kept, and
      when v was not already first every other value moved back one
      slot. */
  lemma PushedFront(line: Line, v: Word)
    requires |line| >= 1
    ensures |Pushed(line, v)| == |line| && Pushed(line, v)[0] == v
    ensures line[0] == v ==> Pushed(line, v) == line
    ensures line[0] != v ==> forall i :: 1 <= i < |line| ==> Pushed(line, v)[i] == line[i - 1]
  {
  }

  /** Pushing the same value twice is pushing it once. */
  lemma PushedIdempotent(line: Line, v: Word)
    requires |line| >= 1
    ensures Pushed(Pushed(line, v), v) == Pushed(line, v)
  {
    PushedFront(line, v);
  }

  /** The context after the prediction loop has looked at slots 0 .. k - 1:
      a slot whose value is v and whose usage count is at least the
      context's takes over the context. */
  function SelectUpTo(usage: seq<nat>, line: Line, s: Shape, ctx: Context, v: Word, k: nat): Context
    requires ShapeOk(s) && |line| == s.lineLength && |usage| == s.lineLength && k <= s.lineLength
  {
    if k == 0 then ctx
    else
      var c := SelectUpTo(usage, line, s, ctx, v, k - 1);
      if usage[k - 1] >= c.usageCount && line[k - 1] == v then Context(usage[k - 1], IdOf(s, k - 1)) else c
  }

  /** What the prediction loop decides over slots 0 .. k - 1: either no
      slot holds v with a usage count at least the context's and the
      context is unchanged, or the context names a slot j that holds v, the
      usage count of j is the largest among the slots that hold v, and j is
      the last slot with that count (later matches win ties). */
  ghost predicate Chosen(usage: seq<nat>, line: Line, s: Shape, ctx: Context, v: Word, k: nat, r: Context)
    requires ShapeOk(s) && |line| == s.lineLength && |usage| == s.lineLength && k <= s.lineLength
  {
    (r == ctx && forall j :: 0 <= j < k ==> !(line[j] == v && usage[j] >= ctx.usageCount)) ||
    (Owns(s, r.predictorId) && Slot(s, r.predictorId) < k &&
     var j := Slot(s, r.predictorId);
     line[j] == v && r.usageCount == usage[j] >= ctx.usageCount &&
     (forall l :: 0 <= l < k && line[l] == v && usage[l] >= ctx.usageCount ==> usage[l] <= usage[j]) &&
     (forall l :: j < l < k && line[l] == v ==> usage[l] < usage[j]))
  }

  lemma {:induction false} SelectChosen(usage: seq<nat>, line: Line, s: Shape, ctx: Context, v: Word, k: nat)
    requires ShapeOk(s) && |line| == s.lineLength && |usage| == s.lineLength && k <= s.lineLength
    ensures Chosen(usage, line, s, ctx, v, k, SelectUpTo(usage, line, s, ctx, v, k))
  {
    if k > 0 {
      SelectChosen(usage, line, s, ctx, v, k - 1);
    }
  }

  /** The state of one predictor: its value table and its usage counts. */
  datatype Fcm = Fcm(table: seq<Line>, usage: seq<nat>)

  ghost predicate FcmShaped(s: Shape, f: Fcm)
  {
    ShapeOk(s) && |f.table| == Pow2(s.tableSize) && |f.usage| == s.lineLength &&
    forall r :: 0 <= r < |f.table| ==> |f.table[r]| == s.lineLength
  }

  /** The state of a new predictor: every line the initial line, and the
      usage counts `leftover` with the first one cleared. */
  function InitialFcm(s: Shape, leftover: seq<nat>): (f: Fcm)
    requires ShapeOk(s) && |leftover| == s.lineLength
    ensures FcmShaped(s, f) && f.usage[0] == 0
    ensures forall r :: 0 <= r < |f.table| ==> f.table[r] == InitialLine(s.lineLength)
    ensures forall i :: 1 <= i < s.lineLength ==> f.usage[i] == leftover[i]
  {
    Fcm(seq(Pow2(s.tableSize), _ => InitialLine(s.lineLength)), leftover[0 := 0])
  }

  /** The history has a selected row with at least `order` slots. */
  predicate HistoryFits(s: Shape, h: HistoryState)
  {
    h.index < |h.table| && 1 <= s.order <= |h.table[h.index]|
  }

  /** _mask(history.get(order)): the row of the value table. */
  function Row(s: Shape, h: HistoryState): (r: nat)
    requires HistoryFits(s, h)
    ensures r < Pow2(s.tableSize)
  {
    HistoryGet(h, s.order) as nat % Pow2(s.tableSize)
  }

  /** update(value), and the table part of predictValue: the current row
      has v pushed. */
  function UpdateFcm(s: Shape, f: Fcm, h: HistoryState, v: Word): (r: Fcm)
    requires FcmShaped(s, f) && HistoryFits(s, h)
    ensures FcmShaped(s, r)
  {
    var row := Row(s, h);
    f.(table := f.table[row := Pushed(f.table[row], v)])
  }

  /** predictValue(context, value): the context after the loop over the
      current row, and the predictor after updating that row with v. */
  function Predict(s: Shape, f: Fcm, h: HistoryState, ctx: Context, v: Word): (Context, Fcm)
    requires FcmShaped(s, f) && HistoryFits(s, h)
  {
    (SelectUpTo(f.usage, f.table[Row(s, h)], s, ctx, v, s.lineLength), UpdateFcm(s, f, h, v))
  }

  /** getValue(id): slot id - idBase of the current row. */
  function GetValue(s: Shape, f: Fcm, h: HistoryState, id: PredictorId): Word
    requires FcmShaped(s, f) && HistoryFits(s, h) && Owns(s, id)
  {
    f.table[Row(s, h)][Slot(s, id)]
  }

  /** incrementUsageCount(id). */
  function IncrementUsage(s: Shape, f: Fcm, id: PredictorId): (r: Fcm)
    requires FcmShaped(s, f) && Owns(s, id)
    ensures FcmShaped(s, r) && r.table == f.table
  {
    f.(usage := f.usage[Slot(s, id) := f.usage[Slot(s, id)] + 1])
  }

  /** When the context did not come from this predictor, predictValue
      takes it over exactly when some slot of the current row holds v with
      a usage count at least the context's, and then the slot it names
      holds v: getValue on the old table returns the predicted value. */
  lemma PredictedValue(s: Shape, f: Fcm, h: HistoryState, ctx: Context, v: Word)
    requires FcmShaped(s, f) && HistoryFits(s, h) && !Owns(s, ctx.predictorId)
    ensures var r := Predict(s, f, h, ctx, v).0;
            var line := f.table[Row(s, h)];
            (Owns(s, r.predictorId) <==> exists j :: 0 <= j < s.lineLength && line[j] == v && f.usage[j] >= ctx.usageCount) &&
            (Owns(s, r.predictorId) ==> GetValue(s, f, h, r.predictorId) == v && r.usageCount >= ctx.usageCount) &&
            (!Owns(s, r.predictorId) ==> r == ctx)
  {
    var line := f.table[Row(s, h)];
    SelectChosen(f.usage, line, s, ctx, v, s.lineLength);
  }

  /** predictValue either leaves the context as it was or names one of
      its own ids. */
  lemma PredictOwnsOrKeeps(s: Shape, f: Fcm, h: HistoryState, ctx: Context, v: Word)
    requires FcmShaped(s, f) && HistoryFits(s, h)
    ensures var r := Predict(s, f, h, ctx, v).0;
            r == ctx || (Owns(s, r.predictorId) && r.usageCount >= ctx.usageCount)
  {
    SelectChosen(f.usage, f.table[Row(s, h)], s, ctx, v, s.lineLength);
  }

  /** predictValue and update leave the table in the same state, and
      afterwards the most recent value of the current row is v while
      every other row is unchanged. */
  lemma UpdateAgrees(s: Shape, f: Fcm, h: HistoryState, ctx: Context, v: Word)
    requires FcmShaped(s, f) && HistoryFits(s, h)
    ensures Predict(s, f, h, ctx, v).1 == UpdateFcm(s, f, h, v)
    ensures GetValue(s, UpdateFcm(s, f, h, v), h, s.idBase) == v
    ensures forall r :: 0 <= r < |f.table| && r != Row(s, h) ==> UpdateFcm(s, f, h, v).table[r] == f.table[r]
  {
    PushedFront(f.table[Row(s, h)], v);
  }

  /** FiniteContextMethodPredictor: the value table and the usage counts
      are arrays owned by the predictor; the history is a reference that
      several predictors may share. */
  class FcmPredictor {
    const shape: Shape
    const history: History
    const table: array<Line>
    const usage: array<nat>

    ghost predicate Valid()
      reads table, usage, history, history.table
    {
      history.Valid() && FcmShaped(shape, State()) && shape.order <= history.order
    }

    ghost function State(): Fcm
      reads table, usage
    {
      Fcm(table[..], usage[..])
    }

    /** A predictor over a given history. Every line starts as
        InitialLine. The constructor of Predictor clears only the first
        usage count (it passes the size of a pointer to memset); the other
        counts keep whatever `leftover` the memory held. */
    constructor (shape: Shape, history: History, leftover: seq<nat>)
      requires ShapeOk(shape) && history.Valid() && shape.order <= history.order
      requires |leftover| == shape.lineLength
      ensures Valid() && this.shape == shape && this.history == history
      ensures State() == InitialFcm(shape, leftover)
      ensures fresh(table) && fresh(usage)
    {
      this.shape := shape;
      this.history := history;
      var rows := new Line[Pow2(shape.tableSize)];
      var index := 0;
      while index < rows.Length
        invariant 0 <= index <= rows.Length
        invariant forall r :: 0 <= r < index ==> rows[r] == InitialLine(shape.lineLength)
      {
        rows[index] := InitialLine(shape.lineLength);
        index := index + 1;
      }
      table := rows;
      var counts := new nat[shape.lineLength](i requires 0 <= i < shape.lineLength => leftover[i]);
      counts[0] := 0;
      usage := counts;
      assert rows[..] == InitialFcm(shape, leftover).table;
      assert counts[..] == leftover[0 := 0];
    }

    /** The row current for this predictor. */
    function CurrentRow(): (r: nat)
      reads table, usage, history, history.table
      requires Valid()
      ensures r == Row(shape, history.State()) && r < table.Length
    {
      history.Get(shape.order) as nat % Pow2(shape.tableSize)
    }

    /** predictValue: the loop over the current row, then _update. */
    method PredictValue(ctx: Context, v: Word) returns (r: Context)
      requires Valid()
      modifies table
      ensures Valid() && (r, State()) == Predict(shape, old(State()), history.State(), ctx, v)
    {
      var row := CurrentRow();
      var line := table[row];
      r := ctx;
      var i := 0;
      while i < shape.lineLength
        invariant 0 <= i <= shape.lineLength
        invariant r == SelectUpTo(usage[..], line, shape, ctx, v, i)
      {
        if usage[i] >= r.usageCount && line[i] == v {
          r := Context(usage[i], IdOf(shape, i));
        }
        i := i + 1;
      }
      UpdateRow(row, v);
    }

    /** getValue(id). */
    function GetValueOf(id: PredictorId): (v: Word)
      reads table, usage, history, history.table
      requires Valid() && Owns(shape, id)
      ensures v == GetValue(shape, State(), history.State(), id)
    {
      table[CurrentRow()][Slot(shape, id)]
    }

    /** update(value). */
    method Update(v: Word)
      requires Valid()
      modifies table
      ensures Valid() && State() == UpdateFcm(shape, old(State()), history.State(), v)
    {
      var row := CurrentRow();
      UpdateRow(row, v);
    }

    /** _update(index, value): shifts the row in place from the last slot
        down to slot 1 and writes v into slot 0, unless v is already
        first. */
    method UpdateRow(row: nat, v: Word)
      requires Valid() && row < table.Length
      modifies table
      ensures Valid() && table[..] == old(table[..])[row := Pushed(old(table[row]), v)]
    {
      ghost var line := table[row];
      if table[row][0] != v {
        var i := shape.lineLength - 1;
        while i > 0
          invariant 0 <= i < shape.lineLength
          invariant table[..] == old(table[..])[row := table[row]]
          invariant |table[row]| == shape.lineLength
          invariant forall k :: 0 <= k <= i ==> table[row][k] == line[k]
          invariant forall k :: i < k < shape.lineLength ==> table[row][k] == line[k - 1]
        {
          table[row] := table[row][i := table[row][i - 1]];
          i := i - 1;
        }
        table[row] := table[row][0 := v];
        assert table[row] == Pushed(line, v);
      }
    }

    /** incrementUsageCount(id). */
    method IncrementUsageCount(id: PredictorId)
      requires Valid() && Owns(shape, id)
      modifies usage
      ensures Valid() && State() == IncrementUsage(shape, old(State()), id)
    {
      var i := Slot(shape, id);
      usage[i] := usage[i] + 1;
    }
  }
}
