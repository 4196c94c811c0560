/** The id and data coding shared by the VPC4 compound predictors
    (simutrace/storageserver/simtrace/VPC4/CompoundPredictor.h), in
    full-byte mode: every encoded value writes one predictor id to the code
    buffer, and a value that no predictor got right is also written to the
    data buffer. The buffers are passed by pointer to pointer; a cursor
    holds the buffer and the position the pointer has reached. */
module Compound {
  import opened Wrappers
  import opened FcmHistories
  import opened FcmPredictors

  /** A buffer and the position of the caller's pointer into it. */
  class Cursor<T> {
    const buffer: array<T>
    var position: nat

    constructor (buffer: array<T>)
      ensures this.buffer == buffer && position == 0
    {
      this.buffer := buffer;
      position := 0;
    }

    /** _writePredictorId and _writeData: store x at the cursor and move
        it on by one. */
    method Write(x: T)
      requires position < buffer.Length
      modifies this, buffer
      ensures buffer[..] == old(buffer[..])[old(position) := x] && position == old(position) + 1
    {
      buffer[position] := x;
      position := position + 1;
    }

    /** _readPredictorId and _readData: the element at the cursor, which
        moves on by one. */
    method Read() returns (x: T)
      requires position < buffer.Length
      modifies this
      ensures x == buffer[old(position)] && position == old(position) + 1
    {
      x := buffer[position];
      position := position + 1;
    }
  }

  /** What _evaluateContext emits for one value: the predictor id, and the
      value itself when it was not predicted. */
  datatype Coded = Coded(id: PredictorId, datum: Option<Word>)

  /** A well-formed emission of a compound predictor whose NotPredictedId
      is np: the id is at most np, and data goes with np alone. */
  predicate WellCoded(c: Coded, np: PredictorId)
  {
    c.id <= np && (c.datum.Some? <==> c.id == np)
  }

  /** _evaluateContext: a predicted context emits its id alone; otherwise
      the value goes to the data buffer under NotPredictedId. */
  function Evaluate(ctx: Context, np: PredictorId, value: Word): (c: Coded)
    requires IsPredicted(ctx) ==> ctx.predictorId < np
    ensures WellCoded(c, np)
    ensures IsPredicted(ctx) <==> c.datum.None?
    ensures c.datum.Some? ==> c.datum.value == value
  {
    if IsPredicted(ctx) then Coded(ctx.predictorId, None) else Coded(np, Some(value))
  }

  /** _evaluateContext without the usage count increment, which belongs
      to the predictor that owns the id: writes the id and, when not
      predicted, the value. */
  method EvaluateContext(codes: Cursor<PredictorId>, data: Cursor<Word>, ctx: Context, np: PredictorId, value: Word)
    returns (id: PredictorId)
    requires IsPredicted(ctx) ==> ctx.predictorId < np
    requires codes.position < codes.buffer.Length && data.position < data.buffer.Length
    requires codes as object != data && codes.buffer as object != data.buffer
    modifies codes, codes.buffer, data, data.buffer
    ensures var c := Evaluate(ctx, np, value);
            id == c.id &&
            codes.buffer[..] == old(codes.buffer[..])[old(codes.position) := id] &&
            codes.position == old(codes.position) + 1 &&
            (c.datum.Some? ==> data.buffer[..] == old(data.buffer[..])[old(data.position) := value] &&
                               data.position == old(data.position) + 1) &&
            (c.datum.None? ==> data.buffer[..] == old(data.buffer[..]) && data.position == old(data.position))
  {
    if IsPredicted(ctx) {
      id := ctx.predictorId;
    } else {
      data.Write(value);
      id := np;
    }
    codes.Write(id);
  }

  /** _readPredictorId and, for NotPredictedId, _readData: the next
      emission, as ReadCoded reads it at the two cursors. */
  method ReadNext(codes: Cursor<PredictorId>, data: Cursor<Word>, np: PredictorId) returns (c: Coded)
    requires codes.position < codes.buffer.Length && data.position <= data.buffer.Length
    requires codes.buffer[codes.position] <= np
    requires codes.buffer[codes.position] == np ==> data.position < data.buffer.Length
    requires codes as object != data
    modifies codes, data
    ensures ReadCoded(codes.buffer[..], data.buffer[..], old(codes.position), old(data.position), np) == Some((c, data.position))
    ensures c.id == codes.buffer[old(codes.position)] && codes.position == old(codes.position) + 1
  {
    var id := codes.Read();
    if id < np {
      c := Coded(id, None);
    } else {
      var x := data.Read();
      c := Coded(id, Some(x));
    }
  }

  /** The code and data buffers after emitting cs in order. */
  function Emit(cs: seq<Coded>): (r: (seq<PredictorId>, seq<Word>))
    ensures |r.0| == |cs|
  {
    if |cs| == 0 then ([], [])
    else
      var (codes, data) := Emit(cs[..|cs| - 1]);
      var c := cs[|cs| - 1];
      (codes + [c.id], data + (if c.datum.Some? then [c.datum.value] else []))
  }

  /** One decoding step: read the id at cursor i of the codes and, for
      NotPredictedId, the value at cursor j of the data. None when the id
      is above NotPredictedId or the data has run out. */
  function ReadCoded(codes: seq<PredictorId>, data: seq<Word>, i: nat, j: nat, np: PredictorId): (r: Option<(Coded, nat)>)
    requires i < |codes| && j <= |data|
    ensures r.Some? ==> WellCoded(r.value.0, np) && j <= r.value.1 <= |data|
  {
    var id := codes[i];
    if id > np then None
    else if id < np then Some((Coded(id, None), j))
    else if j < |data| then Some((Coded(id, Some(data[j])), j + 1))
    else None
  }

  /** Decoding the first n ids of the buffers. */
  function ReadAll(codes: seq<PredictorId>, data: seq<Word>, n: nat, np: PredictorId): (r: Option<(seq<Coded>, nat)>)
    requires n <= |codes|
    ensures r.Some? ==> |r.value.0| == n && r.value.1 <= |data|
  {
    if n == 0 then Some(([], 0))
    else
      match ReadAll(codes, data, n - 1, np)
      case None => None
      case Some((cs, j)) =>
        match ReadCoded(codes, data, n - 1, j, np)
        case None => None
        case Some((c, j')) => Some((cs + [c], j'))
  }

  /** Codes and data are consumed in lockstep: reading back what a
      sequence of well-formed emissions wrote gives the same emissions and
      uses up exactly the data written. */
  lemma {:induction false} ReadEmitted(cs: seq<Coded>, np: PredictorId)
    requires forall k :: 0 <= k < |cs| ==> WellCoded(cs[k], np)
    ensures ReadAll(Emit(cs).0, Emit(cs).1, |cs|, np) == Some((cs, |Emit(cs).1|))
  {
    if |cs| > 0 {
      var n := |cs|;
      var init := cs[..n - 1];
      ReadEmitted(init, np);
      var (codes, data) := Emit(init);
      var (codes', data') := Emit(cs);
      ReadPrefix(codes, data, codes', data', n - 1, np);
      assert cs == init + [cs[n - 1]];
    }
  }

  /** Reading n ids only looks at the first n ids and at the data they
      consume, so appending to both buffers does not change it. */
  lemma {:induction false} ReadPrefix(codes: seq<PredictorId>, data: seq<Word>, codes': seq<PredictorId>, data': seq<Word>,
                                      n: nat, np: PredictorId)
    requires n <= |codes| <= |codes'| && codes'[..|codes|] == codes && |data| <= |data'| && data'[..|data|] == data
    ensures ReadAll(codes, data, n, np).Some? ==> ReadAll(codes', data', n, np) == ReadAll(codes, data, n, np)
  {
    if n > 0 && ReadAll(codes, data, n, np).Some? {
      ReadPrefix(codes, data, codes', data', n - 1, np);
      assert codes'[n - 1] == codes[n - 1];
      var (cs, j) := ReadAll(codes, data, n - 1, np).value;
      if j < |data| {
        assert data'[j] == data[j];
      }
    }
  }
}
