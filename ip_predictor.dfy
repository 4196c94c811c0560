/** The instruction pointer predictor of VPC4
    (simutrace/storageserver/simtrace/VPC4/IpPredictor.h): a first-order
    and a third-order finite context method predictor over one shared
    history of order 3. Ids 0-1 name the slots of the first-order
    predictor, ids 2-3 those of the third-order one, and id 4 says that the
    ip itself is in the data buffer. The functions take the pair's
    configuration as a parameter; the class pins it to IpConfig. */
module IpPrediction {
  import opened Wrappers
  import opened FcmHistories
  import opened FcmPredictors
  import opened FcmPairs
  import opened Compound

  /** FcmHistory<T, 17, 3> (one row, 17-bit hashes, order 3) under
      FiniteContextMethodPredictor<T, 17, 1, 2, ...> at idBase 0 and
      FiniteContextMethodPredictor<T, 19, 3, 2, ...> at idBase 2. */
  const IpConfig := PairConfig(Shape(0, 2, 17, 1), Shape(2, 2, 19, 3), 0, 17, 3)

  /** encodeIp: both predictors look at the ip, the shared history takes
      it, and _evaluateContext credits the predictor that got it right or
      sends the ip to the data buffer under NotPredictedId, End(c). */
  function EncodeIp(c: PairConfig, s: Pair, ip: Word): (r: (Pair, Coded))
    requires PairShaped(c, s)
    ensures PairShaped(c, r.0) && WellCoded(r.1, End(c))
  {
    var step := EncodeStep(c, s, ip);
    (step.1, Evaluate(step.0, End(c), ip))
  }

  /** _getIp: the value the id names, or the datum. */
  function GetIp(c: PairConfig, s: Pair, code: Coded): Word
    requires PairShaped(c, s) && WellCoded(code, End(c))
  {
    if code.id < End(c) then PairGet(c, s, code.id) else code.datum.value
  }

  /** decodeIp: get the ip, update both predictors, then the history. */
  function DecodeIp(c: PairConfig, s: Pair, code: Coded): (r: (Pair, Word))
    requires PairShaped(c, s) && WellCoded(code, End(c))
    ensures PairShaped(c, r.0)
  {
    var ip := GetIp(c, s, code);
    (DecodeStep(c, s, ip), ip)
  }

  /** From agreeing states, decodeIp after encodeIp yields the same ip,
      and the two sides agree again. */
  lemma EncodeDecode(c: PairConfig, a: Pair, b: Pair, ip: Word)
    requires PairShaped(c, a) && PairShaped(c, b) && Agree(a, b)
    ensures var (a', code) := EncodeIp(c, a, ip);
            var (b', x) := DecodeIp(c, b, code);
            x == ip && Agree(a', b')
  {
    StepsAgree(c, a, b, ip);
  }

  /** Encoding a sequence of ips. */
  function EncodeIps(c: PairConfig, s: Pair, ips: seq<Word>): (r: (Pair, seq<Coded>))
    requires PairShaped(c, s)
    ensures PairShaped(c, r.0) && |r.1| == |ips| && forall k :: 0 <= k < |r.1| ==> WellCoded(r.1[k], End(c))
  {
    if |ips| == 0 then (s, [])
    else
      var (s1, codes) := EncodeIps(c, s, ips[..|ips| - 1]);
      var (s2, code) := EncodeIp(c, s1, ips[|ips| - 1]);
      (s2, codes + [code])
  }

  /** Decoding a sequence of emissions. */
  function DecodeIps(c: PairConfig, s: Pair, codes: seq<Coded>): (r: (Pair, seq<Word>))
    requires PairShaped(c, s) && forall k :: 0 <= k < |codes| ==> WellCoded(codes[k], End(c))
    ensures PairShaped(c, r.0) && |r.1| == |codes|
  {
    if |codes| == 0 then (s, [])
    else
      var (s1, ips) := DecodeIps(c, s, codes[..|codes| - 1]);
      var (s2, ip) := DecodeIp(c, s1, codes[|codes| - 1]);
      (s2, ips + [ip])
  }

  /** Encoding one more ip appends one emission. */
  lemma EncodeIpsSnoc(c: PairConfig, s: Pair, ips: seq<Word>, ip: Word)
    requires PairShaped(c, s)
    ensures var (s1, codes) := EncodeIps(c, s, ips);
            var (s2, code) := EncodeIp(c, s1, ip);
            EncodeIps(c, s, ips + [ip]) == (s2, codes + [code])
  {
    assert (ips + [ip])[..|ips|] == ips;
  }

  /** Decoding one more emission appends one ip. */
  lemma DecodeIpsSnoc(c: PairConfig, s: Pair, codes: seq<Coded>, code: Coded)
    requires PairShaped(c, s) && WellCoded(code, End(c))
    requires forall k :: 0 <= k < |codes| ==> WellCoded(codes[k], End(c))
    ensures var (s1, ips) := DecodeIps(c, s, codes);
            var (s2, ip) := DecodeIp(c, s1, code);
            DecodeIps(c, s, codes + [code]) == (s2, ips + [ip])
  {
    assert (codes + [code])[..|codes|] == codes;
  }

  /** A whole stream round-trips: from agreeing states, decoding what
      was encoded gives back the ips, and the states agree afterwards. */
  lemma {:induction false} RoundTrip(c: PairConfig, a: Pair, b: Pair, ips: seq<Word>)
    requires PairShaped(c, a) && PairShaped(c, b) && Agree(a, b)
    ensures DecodeIps(c, b, EncodeIps(c, a, ips).1).1 == ips
    ensures Agree(EncodeIps(c, a, ips).0, DecodeIps(c, b, EncodeIps(c, a, ips).1).0)
  {
    if |ips| > 0 {
      var init, last := ips[..|ips| - 1], ips[|ips| - 1];
      assert ips == init + [last];
      RoundTrip(c, a, b, init);
      var (a1, codes) := EncodeIps(c, a, init);
      var (b1, xs) := DecodeIps(c, b, codes);
      EncodeIpsSnoc(c, a, init, last);
      var code := EncodeIp(c, a1, last).1;
      DecodeIpsSnoc(c, b, codes, code);
      EncodeDecode(c, a1, b1, last);
    }
  }

  /** The same through the buffers: the code and data buffers the encoder
      fills read back to the emissions, and those decode to the ips. */
  lemma BuffersRoundTrip(c: PairConfig, a: Pair, b: Pair, ips: seq<Word>)
    requires PairShaped(c, a) && PairShaped(c, b) && Agree(a, b)
    ensures var codes := EncodeIps(c, a, ips).1;
            ReadAll(Emit(codes).0, Emit(codes).1, |ips|, End(c)) == Some((codes, |Emit(codes).1|)) &&
            DecodeIps(c, b, codes).1 == ips
  {
    ReadEmitted(EncodeIps(c, a, ips).1, End(c));
    RoundTrip(c, a, b, ips);
  }

  /** IpPredictor: the shared history and the two predictors reading it. */
  class IpPredictor {
    const pair: FcmPair

    ghost predicate Valid()
      reads pair.Repr()
    {
      pair.Valid()
    }

    /** A fresh predictor with the IP configuration: zeroed history,
        initial lines, and usage counts that start from the leftovers but
        for the first. */
    constructor (leftover1: seq<nat>, leftover3: seq<nat>)
      requires |leftover1| == 2 && |leftover3| == 2
      ensures Valid() && pair.cfg == IpConfig
      ensures pair.State() == InitialPair(IpConfig, leftover1, leftover3)
    {
      pair := new FcmPair(IpConfig, leftover1, leftover3);
    }

    /** encodeIp: the new state is EncodeIp of the old, its id goes to the
        code buffer and, when not predicted, the ip to the data buffer. */
    method Encode(codes: Cursor<PredictorId>, data: Cursor<Word>, ip: Word) returns (id: PredictorId)
      requires Valid() && codes.position < codes.buffer.Length && data.position < data.buffer.Length
      requires codes as object != data && codes.buffer as object != data.buffer
      requires codes !in pair.Repr() && codes.buffer !in pair.Repr() && data !in pair.Repr() && data.buffer !in pair.Repr()
      modifies pair.history.table, pair.first.table, pair.first.usage, pair.second.table, pair.second.usage
      modifies codes, codes.buffer, data, data.buffer
      ensures Valid()
      ensures var (s, code) := EncodeIp(pair.cfg, old(pair.State()), ip);
              pair.State() == s && id == code.id &&
              codes.buffer[..] == old(codes.buffer[..])[old(codes.position) := id] &&
              codes.position == old(codes.position) + 1 &&
              (code.datum.Some? ==> data.buffer[..] == old(data.buffer[..])[old(data.position) := ip] &&
                                    data.position == old(data.position) + 1) &&
              (code.datum.None? ==> data.buffer[..] == old(data.buffer[..]) && data.position == old(data.position))
    {
      var ctx := pair.Observe(ip);
      id := EvaluateContext(codes, data, ctx, End(pair.cfg), ip);
    }

    /** decodeIp: reads the next emission and moves to DecodeIp of the
        old state. */
    method Decode(codes: Cursor<PredictorId>, data: Cursor<Word>) returns (ip: Word)
      requires Valid() && codes.position < codes.buffer.Length && data.position <= data.buffer.Length
      requires codes.buffer[codes.position] <= End(pair.cfg)
      requires codes.buffer[codes.position] == End(pair.cfg) ==> data.position < data.buffer.Length
      requires codes as object != data
      requires codes !in pair.Repr() && codes.buffer !in pair.Repr() && data !in pair.Repr() && data.buffer !in pair.Repr()
      modifies pair.history.table, pair.first.table, pair.second.table, codes, data
      ensures Valid()
      ensures var read := ReadCoded(codes.buffer[..], data.buffer[..], old(codes.position), old(data.position), End(pair.cfg));
              read.Some? && read.value.1 == data.position && codes.position == old(codes.position) + 1 &&
              (pair.State(), ip) == DecodeIp(pair.cfg, old(pair.State()), read.value.0)
    {
      ghost var s0 := pair.State();
      var code := ReadNext(codes, data, End(pair.cfg));
      assert pair.State() == s0;
      if code.id < End(pair.cfg) {
        ip := pair.GetValueOf(code.id);
      } else {
        ip := code.datum.value;
      }
      assert ip == GetIp(pair.cfg, s0, code);
      pair.Learn(ip);
    }
  }
}
