/** The keyed history of the finite context method predictors of the VPC4
    compressor (simutrace/storageserver/simtrace/VPC4/FiniteContextMethodHistory.h):
    a table of 2^tableSize rows of `order` hashes. A key selects the row;
    updating with a value folds the value into a hash and shifts it into
    the row, so that slot i of the row stands for the last i + 1 values. */
module FcmHistories {
  /** The symbol type T the predictors are instantiated with: 64-bit words. */
  type Word = bv64
  /** HashType (uint32_t). */
  type HashValue = bv32

  /** Addition and subtraction of 64-bit unsigned values, modulo 2^64. */
  function Plus(x: Word, y: Word): Word
  {
    x + y
  }

  function Minus(x: Word, y: Word): Word
  {
    x - y
  }

  lemma MinusAdded(x: Word, y: Word)
    ensures Minus(x + y, y) == x
  {
  }

  lemma PlusSubtracted(x: Word, y: Word)
    ensures Plus(y, x - y) == x
  {
  }

  lemma SubtractedPlus(x: Word, y: Word)
    ensures Plus(x - y, y) == x
  {
  }

  /** Wrap-around cancels: subtracting what was added gives x back, and
      adding back what was subtracted gives x. */
  lemma WrapAround(x: Word, y: Word)
    ensures Minus(Plus(x, y), y) == x && Plus(y, Minus(x, y)) == x && Plus(Minus(x, y), y) == x
  {
    assert Plus(x, y) == x + y && Minus(x, y) == x - y;
    MinusAdded(x, y);
    PlusSubtracted(x, y);
    SubtractedPlus(x, y);
  }

  function Pow2(n: nat): (p: nat)
    ensures p >= 1
  {
    if n == 0 then 1 else 2 * Pow2(n - 1)
  }

  /** The hash sizes the histories that are updated use (17 and 19
      bits). */
  predicate HashSize(n: nat)
  {
    n == 17 || n == 19
  }

  /** tmp >>= hashSize on the unsigned 64-bit tmp of _hash. */
  function ShiftOut(tmp: Word, hashSize: nat): Word
    requires HashSize(hashSize)
  {
    if hashSize == 17 then tmp >> 17 else tmp >> 19
  }

  /** tmp after k shifts. */
  function ShiftedOut(tmp: Word, hashSize: nat, k: nat): Word
    requires HashSize(hashSize)
  {
    if k == 0 then tmp else ShiftedOut(ShiftOut(tmp, hashSize), hashSize, k - 1)
  }

  /** Four shifts by at least 17 bits clear every 64-bit word, so the loop
      of _hash runs at most four times. */
  lemma FourShifts(v: Word, hashSize: nat)
    requires HashSize(hashSize)
    ensures ShiftedOut(v, hashSize, 4) == 0
  {
    var v1 := ShiftOut(v, hashSize);
    var v2 := ShiftOut(v1, hashSize);
    var v3 := ShiftOut(v2, hashSize);
    var v4 := ShiftOut(v3, hashSize);
    assert ShiftedOut(v, hashSize, 4) == ShiftedOut(v1, hashSize, 3) == ShiftedOut(v2, hashSize, 2)
        == ShiftedOut(v3, hashSize, 1) == ShiftedOut(v4, hashSize, 0);
    if hashSize == 17 {
      assert v >> 17 >> 17 >> 17 >> 17 == 0;
    } else {
      assert v >> 19 >> 19 >> 19 >> 19 == 0;
    }
  }

  /** (1 << hashSize) - 1 in HashType: the low hashSize bits. */
  function Mask(hashSize: nat): HashValue
    requires HashSize(hashSize)
  {
    if hashSize == 17 then 0x1_FFFF else 0x7_FFFF
  }

  /** The low 32 bits of tmp: what `hash ^= tmp` keeps of it. */
  function Low32(tmp: Word): HashValue
  {
    (tmp & 0xFFFF_FFFF) as HashValue
  }

  /** The loop of _hash from an accumulated hash h and the remaining tmp,
      which `rounds` shifts clear: XOR in the low 32 bits of tmp and shift
      it right by hashSize until it is 0. */
  function FoldFrom(h: HashValue, tmp: Word, hashSize: nat, rounds: nat): HashValue
    requires HashSize(hashSize) && ShiftedOut(tmp, hashSize, rounds) == 0
    decreases rounds
  {
    if tmp == 0 then h else FoldFrom(h ^ Low32(tmp), ShiftOut(tmp, hashSize), hashSize, rounds - 1)
  }

  /** One turn of the loop of _hash. */
  lemma FoldStep(h: HashValue, tmp: Word, hashSize: nat, rounds: nat)
    requires HashSize(hashSize) && ShiftedOut(tmp, hashSize, rounds) == 0 && tmp != 0
    ensures rounds > 0 && ShiftedOut(ShiftOut(tmp, hashSize), hashSize, rounds - 1) == 0
    ensures FoldFrom(h ^ Low32(tmp), ShiftOut(tmp, hashSize), hashSize, rounds - 1) == FoldFrom(h, tmp, hashSize, rounds)
  {
  }

  /** _hash: the fold of the value masked to hashSize bits. */
  function Hash(v: Word, hashSize: nat): HashValue
    requires HashSize(hashSize)
  {
    FourShifts(v, hashSize);
    FoldFrom(0, v, hashSize, 4) & Mask(hashSize)
  }

  /** A hash has at most hashSize bits: masking it again changes
      nothing. */
  lemma HashBounded(v: Word, hashSize: nat)
    requires HashSize(hashSize)
    ensures Hash(v, hashSize) <= Mask(hashSize) && Hash(v, hashSize) & Mask(hashSize) == Hash(v, hashSize)
  {
    FourShifts(v, hashSize);
    MaskBounded(FoldFrom(0, v, hashSize, 4), hashSize);
  }

  lemma MaskBounded(f: HashValue, hashSize: nat)
    requires HashSize(hashSize)
    ensures f & Mask(hashSize) <= Mask(hashSize) && f & Mask(hashSize) & Mask(hashSize) == f & Mask(hashSize)
  {
    if hashSize == 17 {
      assert f & 0x1_FFFF <= 0x1_FFFF && f & 0x1_FFFF & 0x1_FFFF == f & 0x1_FFFF;
    } else {
      assert f & 0x7_FFFF <= 0x7_FFFF && f & 0x7_FFFF & 0x7_FFFF == f & 0x7_FFFF;
    }
  }

  /** The row index a key selects: key & _tableMask. */
  function KeyIndex(key: Word, tableSize: nat): (i: nat)
    ensures i < Pow2(tableSize)
  {
    key as nat % Pow2(tableSize)
  }

  /** One slot of an update: the slot below shifted left by one and XORed
      with the new hash. */
  function ShiftIn(below: HashValue, h: HashValue): HashValue
  {
    (below << 1) ^ h
  }

  /** A row after update with a hash h: slot 0 becomes h and slot i the
      previous slot i - 1 shifted in. */
  function Shifted(row: seq<HashValue>, h: HashValue): (r: seq<HashValue>)
    requires |row| >= 1
  {
    [h] + seq(|row| - 1, i requires 0 <= i < |row| - 1 => ShiftIn(row[i], h))
  }

  /** The history state of one KeyedFcmHistory: the selected row and the
      table. */
  datatype HistoryState = HistoryState(index: nat, table: seq<seq<HashValue>>)

  /** A table of `rows` rows of `order` slots with the index on a row. */
  ghost predicate HistoryShaped(h: HistoryState, rows: nat, order: nat)
  {
    |h.table| == rows && h.index < rows && forall r :: 0 <= r < rows ==> |h.table[r]| == order
  }

  /** The state of a new history: 2^tableSize rows of `order` zero slots,
      with row 0 selected. */
  function InitialHistory(tableSize: nat, order: nat): (h: HistoryState)
    requires 1 <= order
    ensures HistoryShaped(h, Pow2(tableSize), order) && h.index == 0
    ensures forall r, j :: 0 <= r < |h.table| && 0 <= j < order ==> h.table[r][j] == 0
  {
    HistoryState(0, seq(Pow2(tableSize), _ => seq(order, _ => 0)))
  }

  /** get(predictorOrder). */
  function HistoryGet(h: HistoryState, predictorOrder: nat): HashValue
    requires h.index < |h.table| && 1 <= predictorOrder <= |h.table[h.index]|
  {
    h.table[h.index][predictorOrder - 1]
  }

  /** update(value): the selected row shifts in the value's hash. */
  function HistoryUpdate(h: HistoryState, hashSize: nat, v: Word): (r: HistoryState)
    requires HashSize(hashSize) && h.index < |h.table| && |h.table[h.index]| >= 1
    ensures forall rows, order :: HistoryShaped(h, rows, order) ==> HistoryShaped(r, rows, order)
  {
    h.(table := h.table[h.index := Shifted(h.table[h.index], Hash(v, hashSize))])
  }

  /** The row after updating with each of vs in turn. */
  function Updates(row: seq<HashValue>, hashSize: nat, vs: seq<Word>): (r: seq<HashValue>)
    requires HashSize(hashSize) && |row| >= 1
    ensures |r| == |row|
  {
    if |vs| == 0 then row
    else Shifted(Updates(row, hashSize, vs[..|vs| - 1]), Hash(vs[|vs| - 1], hashSize))
  }

  /** Slot i of a row is a finite context of order i + 1: once the row has
      seen at least i + 1 values, slot i depends on the last i + 1 of them
      only, whatever the row held before. */
  lemma {:induction false} SlotIsContext(row1: seq<HashValue>, row2: seq<HashValue>, hashSize: nat,
                                         vs: seq<Word>, i: nat)
    requires HashSize(hashSize) && |row1| == |row2| >= 1 && i < |row1| && i < |vs|
    ensures Updates(row1, hashSize, vs)[i] == Updates(row2, hashSize, vs)[i]
  {
    var last := vs[..|vs| - 1];
    if i > 0 {
      SlotIsContext(row1, row2, hashSize, last, i - 1);
    }
  }

  /** Slot 0 is the hash of the last value, and slot 1 folds in the one
      before it. */
  lemma LastTwo(row: seq<HashValue>, hashSize: nat, vs: seq<Word>)
    requires HashSize(hashSize) && |row| >= 2 && |vs| >= 2
    ensures var r := Updates(row, hashSize, vs);
            var n := |vs|;
            r[0] == Hash(vs[n - 1], hashSize) &&
            r[1] == ShiftIn(Hash(vs[n - 2], hashSize), Hash(vs[n - 1], hashSize))
  {
    var n := |vs|;
    assert vs[..n - 1][..n - 2] == vs[..n - 2];
  }

  /** KeyedFcmHistory. */
  class History {
    const tableSize: nat
    const hashSize: nat
    const order: nat
    const table: array<seq<HashValue>>
    var index: nat

    ghost predicate Valid()
      reads this, table
    {
      1 <= order && table.Length == Pow2(tableSize) && index < table.Length &&
      forall r :: 0 <= r < table.Length ==> |table[r]| == order
    }

    ghost function State(): HistoryState
      reads this, table
    {
      HistoryState(index, table[..])
    }

    /** A new history: every slot of every row is zero and row 0 is
        selected. */
    constructor (tableSize: nat, hashSize: nat, order: nat)
      requires 1 <= order
      ensures Valid() && this.tableSize == tableSize && this.hashSize == hashSize && this.order == order
      ensures State() == InitialHistory(tableSize, order) && fresh(table)
    {
      this.tableSize := tableSize;
      this.hashSize := hashSize;
      this.order := order;
      index := 0;
      var rows := new seq<HashValue>[Pow2(tableSize)](_ => seq(order, _ => 0));
      assert rows[..] == InitialHistory(tableSize, order).table;
      table := rows;
    }

    /** setKey: selects the row key & _tableMask. */
    method SetKey(key: Word)
      requires Valid()
      modifies this
      ensures Valid() && index == KeyIndex(key, tableSize)
    {
      index := KeyIndex(key, tableSize);
    }

    /** get(predictorOrder). */
    function Get(predictorOrder: nat): (h: HashValue)
      reads this, table
      requires Valid() && 1 <= predictorOrder <= order
      ensures h == HistoryGet(State(), predictorOrder)
    {
      table[index][predictorOrder - 1]
    }

    /** set(predictorOrder, value): only the selected slot changes. */
    method Set(predictorOrder: nat, value: HashValue)
      requires Valid() && 1 <= predictorOrder <= order
      modifies table
      ensures Valid() && table[..] == old(table[..])[index := old(table[index])[predictorOrder - 1 := value]]
    {
      table[index] := table[index][predictorOrder - 1 := value];
    }

    /** _hash: the loop, then the mask. */
    method HashOf(v: Word) returns (h: HashValue)
      requires HashSize(hashSize)
      ensures h == Hash(v, hashSize)
    {
      FourShifts(v, hashSize);
      h := FoldLoop(v);
      h := h & Mask(hashSize);
    }

    /** The loop of _hash. */
    method FoldLoop(v: Word) returns (h: HashValue)
      requires HashSize(hashSize) && ShiftedOut(v, hashSize, 4) == 0
      ensures h == FoldFrom(0, v, hashSize, 4)
    {
      h := 0;
      var tmp := v;
      ghost var rounds: nat := 4;
      while tmp > 0
        invariant ShiftedOut(tmp, hashSize, rounds) == 0
        invariant FoldFrom(h, tmp, hashSize, rounds) == FoldFrom(0, v, hashSize, 4)
        decreases rounds
      {
        FoldStep(h, tmp, hashSize, rounds);
        h := h ^ Low32(tmp);
        tmp := ShiftOut(tmp, hashSize);
        rounds := rounds - 1;
      }
    }

    /** update(value): the selected row becomes Shifted of itself, from
        the last slot down to slot 0; no other row changes. */
    method Update(v: Word)
      requires Valid() && HashSize(hashSize)
      modifies table
      ensures Valid() && table[..] == old(table[..])[index := Shifted(old(table[index]), Hash(v, hashSize))]
    {
      var h := HashOf(v);
      ghost var row := table[index];
      var i := order - 1;
      while i > 0
        invariant 0 <= i < order && Valid()
        invariant table[..] == old(table[..])[index := table[index]]
        invariant |table[index]| == order
        invariant forall k :: 0 <= k <= i ==> table[index][k] == row[k]
        invariant forall k :: i < k < order ==> table[index][k] == ShiftIn(row[k - 1], h)
      {
        table[index] := table[index][i := ShiftIn(table[index][i - 1], h)];
        i := i - 1;
      }
      table[index] := table[index][0 := h];
      assert table[index] == Shifted(row, h);
    }
  }
}
