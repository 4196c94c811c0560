/** sizeToString of libsimubase/Utils.cpp: a byte count rendered as
    "<n> <unit>", dividing by 1024 until the value is below 1024 or the
    largest allowed unit is reached. */
module SizeString {
  import opened Decimal

  /** SizeUnit: SuBytes = 2, SuKiB = 3, ..., SuTiB = 6. */
  const SuBytes: nat := 2
  const SuTiB: nat := 6

  const Prefix: seq<string> := ["bytes", "byte", "bytes", "KiB", "MiB", "GiB", "TiB"]

  /** The size shifted right by 10 bits k times. */
  function ShiftedSize(size: nat, k: nat): nat
  {
    if k == 0 then size else ShiftedSize(size / 1024, k - 1)
  }

  /** The loop of sizeToString, started at unit index idx: the scaled value
      and the unit index it stops at. The value is the size divided by 1024
      once per unit step, and it is below 1024 unless the largest unit
      stopped the loop. */
  function Scale(size: nat, idx: nat, maxUnit: nat): (p: (nat, nat))
    ensures idx <= p.1 && (idx <= maxUnit ==> p.1 <= maxUnit)
    ensures p.0 == ShiftedSize(size, p.1 - idx)
    ensures p.1 < maxUnit ==> p.0 < 1024
    decreases size
  {
    if idx < maxUnit && size >= 1024 then
      Scale(size / 1024, idx + 1, maxUnit)
    else (size, idx)
  }

  /** The text sizeToString returns. */
  function SizeText(size: nat, maxUnit: nat): (s: string)
    requires SuBytes <= maxUnit <= SuTiB
  {
    if size > 1 then
      var p := Scale(size, SuBytes, maxUnit);
      NatToString(p.0) + " " + Prefix[p.1]
    else NatToString(size) + " " + Prefix[size]
  }

  /** What the text says: a value and a unit, where the value is the size
      divided by 1024 per unit step, the unit never exceeds maxUnit, and the
      value is below 1024 unless maxUnit stopped the scaling. */
  lemma SizeTextMeaning(size: nat, maxUnit: nat)
    requires SuBytes <= maxUnit <= SuTiB && size > 1
    ensures exists v: nat, u: nat ::
              SuBytes <= u <= maxUnit && v == ShiftedSize(size, u - SuBytes) &&
              (u < maxUnit ==> v < 1024) &&
              SizeText(size, maxUnit) == NatToString(v) + " " + Prefix[u]
  {
    var p := Scale(size, SuBytes, maxUnit);
    assert SizeText(size, maxUnit) == NatToString(p.0) + " " + Prefix[p.1];
  }

  /** Sizes 0 and 1 use the dedicated singular and plural words. */
  lemma SmallSizes(maxUnit: nat)
    requires SuBytes <= maxUnit <= SuTiB
    ensures SizeText(0, maxUnit) == "0 bytes"
    ensures SizeText(1, maxUnit) == "1 byte"
  {
  }

  /** sizeToString, with the shifting loop of the source. */
  method SizeToString(size: nat, maxUnit: nat) returns (s: string)
    requires size < 0x1_0000_0000_0000_0000
    requires SuBytes <= maxUnit <= SuTiB
    ensures s == SizeText(size, maxUnit)
  {
    var value := size;
    var idx: nat;
    if size > 1 {
      idx := 2;
      while idx < maxUnit && value >= 1024
        invariant SuBytes <= idx <= maxUnit
        invariant Scale(value, idx, maxUnit) == Scale(size, SuBytes, maxUnit)
        decreases value
      {
        value := value / 1024;
        idx := idx + 1;
      }
    } else {
      idx := size;
    }
    s := NatToString(value) + " " + Prefix[idx];
  }
}
