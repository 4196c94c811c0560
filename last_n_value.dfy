/** The keyed last-n-value predictor of VPC4
    (simutrace/storageserver/simtrace/VPC4/KeyedLastNValuePredictor.h): a
    first-order finite context method predictor over a private history of
    one row and one slot. Instead of hashing inputs, the slot holds the key
    itself, so the key selects the line of the value table, and the line
    holds the last n values seen under that key. */
module LastNValue {
  import opened FcmHistories
  import opened FcmPredictors

  /** setKey on the private history: its only slot becomes the key
      truncated to HashType. */
  function SetKeyState(h: HistoryState, key: Word): (r: HistoryState)
    requires h.index < |h.table| && |h.table[h.index]| >= 1
    ensures r.index == h.index && |r.table| == |h.table| && |r.table[r.index]| == |h.table[h.index]|
  {
    h.(table := h.table[h.index := h.table[h.index][0 := Low32(key)]])
  }

  /** getMostRecentValue: getValue(idBase), the first slot of the line. */
  function MostRecent(s: Shape, f: Fcm, h: HistoryState): Word
    requires FcmShaped(s, f) && HistoryFits(s, h)
  {
    GetValue(s, f, h, s.idBase)
  }

  /** After setKey(key) the predictor reads the line of the key's low
      tableSize bits, whatever key was set before. */
  lemma KeySelectsRow(s: Shape, h: HistoryState, key: Word)
    requires s.order == 1 && h.index < |h.table| && |h.table[h.index]| >= 1
    ensures HistoryFits(s, SetKeyState(h, key))
    ensures Row(s, SetKeyState(h, key)) == Low32(key) as nat % Pow2(s.tableSize)
  {
  }

  /** After update(v) under the same key, getMostRecentValue() is v, and
      the lines of the other keys are unchanged. */
  lemma MostRecentAfterUpdate(s: Shape, f: Fcm, h: HistoryState, v: Word)
    requires FcmShaped(s, f) && HistoryFits(s, h)
    ensures MostRecent(s, UpdateFcm(s, f, h, v), h) == v
    ensures forall r :: 0 <= r < |f.table| && r != Row(s, h) ==> UpdateFcm(s, f, h, v).table[r] == f.table[r]
  {
    UpdateAgrees(s, f, h, NewContext(), v);
  }

  /** KeyedLastNValuePredictor: the FCM and the one-slot history it reads,
      which belongs to this predictor alone. */
  class LastNValuePredictor {
    const history: History
    const fcm: FcmPredictor

    ghost function Repr(): set<object>
    {
      {history, history.table, fcm.table, fcm.usage}
    }

    ghost predicate Valid()
      reads Repr()
    {
      fcm.history == history && fcm.Valid() && history.tableSize == 0 && history.order == 1 &&
      fcm.shape.order == 1
    }

    /** A predictor with ids idBase .. idBase + lineLength - 1 over 2^tableSize
        lines; `leftover` is what the usage counts start with. */
    constructor (idBase: PredictorId, tableSize: nat, lineLength: nat, leftover: seq<nat>)
      requires ShapeOk(Shape(idBase, lineLength, tableSize, 1)) && |leftover| == lineLength
      ensures Valid() && fcm.shape == Shape(idBase, lineLength, tableSize, 1)
      ensures history.State() == InitialHistory(0, 1)
      ensures fcm.State() == InitialFcm(Shape(idBase, lineLength, tableSize, 1), leftover)
      ensures fresh(Repr())
    {
      var h := new History(0, 0, 1);
      history := h;
      fcm := new FcmPredictor(Shape(idBase, lineLength, tableSize, 1), h, leftover);
    }

    /** setKey(key). */
    method SetKey(key: Word)
      requires Valid()
      modifies history.table
      ensures Valid() && history.State() == SetKeyState(old(history.State()), key)
      ensures Row(fcm.shape, history.State()) == Low32(key) as nat % Pow2(fcm.shape.tableSize)
    {
      history.Set(1, Low32(key));
      KeySelectsRow(fcm.shape, old(history.State()), key);
    }

    /** getMostRecentValue(). */
    function GetMostRecentValue(): (v: Word)
      reads Repr()
      requires Valid()
      ensures v == MostRecent(fcm.shape, fcm.State(), history.State())
    {
      fcm.GetValueOf(fcm.shape.idBase)
    }
  }
}
