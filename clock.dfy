/** Timestamp conversion of libsimubase/Clock.cpp (non-Windows branch).
    A Timestamp is an unsigned 64-bit count of 100 ns intervals since
    1601-01-01 (the Windows FILETIME epoch); a TimeType is a signed 64-bit
    UNIX time in seconds. Both widths are modelled explicitly. */
module Clock {
  const Two64: int := 0x1_0000_0000_0000_0000
  const Two63: int := 0x8000_0000_0000_0000

  /** 100 ns ticks per second. */
  const TicksPerSecond: int := 10000000
  /** Ticks between 1601-01-01 and 1970-01-01. */
  const EpochOffset: int := 116444736000000000

  predicate IsUint64(x: int) { 0 <= x < Two64 }
  predicate IsInt64(x: int) { -Two63 <= x < Two63 }

  /** Conversion of an integer to uint64 (wrap-around). */
  function ToUint64(x: int): (r: int)
    ensures IsUint64(r) && (r - x) % Two64 == 0
  {
    x % Two64
  }

  /** Reinterpretation of a uint64 bit pattern as int64 (two's complement). */
  function ToInt64(x: int): (r: int)
    requires IsUint64(x)
    ensures IsInt64(r) && (r - x) % Two64 == 0
  {
    if x < Two63 then x else x - Two64
  }

  /** C division on signed integers truncates toward zero. */
  function TruncDiv(a: int, b: int): (q: int)
    requires b > 0
    ensures a >= 0 ==> q == a / b
    ensures a < 0 ==> q == -((-a) / b)
  {
    if a >= 0 then a / b else -((-a) / b)
  }

  /** timeToTimestamp: t * 10^7 is computed in int64 (an overflow there is
      undefined behaviour in C, hence the precondition), then converted to
      uint64 and shifted by the epoch offset with uint64 wrap-around. */
  function TimeToTimestamp(t: int): (ts: int)
    requires IsInt64(t) && IsInt64(t * TicksPerSecond)
    ensures IsUint64(ts)
    ensures t >= 0 && t * TicksPerSecond + EpochOffset < Two64 ==>
              ts == t * TicksPerSecond + EpochOffset
  {
    ToUint64(ToUint64(t * TicksPerSecond) + EpochOffset)
  }

  /** timestampToTime: the uint64 difference is reinterpreted as int64 and
      divided with truncation toward zero. */
  function TimestampToTime(ts: int): (t: int)
    requires IsUint64(ts)
    ensures IsInt64(t)
    ensures EpochOffset <= ts < EpochOffset + Two63 ==> t == (ts - EpochOffset) / TicksPerSecond
  {
    TruncDiv(ToInt64(ToUint64(ts - EpochOffset)), TicksPerSecond)
  }

  lemma ModUnique(a: int, b: int)
    requires IsUint64(a) && IsUint64(b) && (a - b) % Two64 == 0
    ensures a == b
  {
  }

  /** Converting a UNIX time to a timestamp and back yields the original
      time, for every time whose tick count fits into int64. */
  lemma TimeRoundTrip(t: int)
    requires IsInt64(t) && IsInt64(t * TicksPerSecond)
    ensures TimestampToTime(TimeToTimestamp(t)) == t
  {
    TicksRoundTrip(t);
    TruncDivTicks(t);
  }

  /** The uint64 difference to the epoch, read back as int64, is the tick
      count the timestamp was built from. */
  lemma TicksRoundTrip(t: int)
    requires IsInt64(t) && IsInt64(t * TicksPerSecond)
    ensures ToInt64(ToUint64(TimeToTimestamp(t) - EpochOffset)) == t * TicksPerSecond
  {
    var ticks := t * TicksPerSecond;
    var diff := ToUint64(TimeToTimestamp(t) - EpochOffset);
    // diff is the uint64 bit pattern of ticks
    assert (diff - ticks) % Two64 == 0;
    var back := ToInt64(diff);
    assert (back - ticks) % Two64 == 0;
    ModUnique(back + Two63, ticks + Two63);
  }

  /** Truncating division undoes the multiplication by the ticks per
      second, for either sign. */
  lemma TruncDivTicks(t: int)
    ensures TruncDiv(t * TicksPerSecond, TicksPerSecond) == t
  {
    if t < 0 {
      assert -(t * TicksPerSecond) == (-t) * TicksPerSecond;
    }
  }

  /** The '%~' substitution of formatTime: the milliseconds within the
      current second. */
  function Milliseconds(ts: int): (ms: int)
    requires IsUint64(ts)
    ensures 0 <= ms < 1000
    ensures ms == (ts % TicksPerSecond) / 10000
  {
    MillisecondsOfSecond(ts);
    (ts / 10000) % 1000
  }

  /** Dropping whole seconds before or after dividing by 10000 ticks gives
      the same milliseconds. */
  lemma MillisecondsOfSecond(ts: int)
    requires ts >= 0
    ensures (ts / 10000) % 1000 == (ts % TicksPerSecond) / 10000
  {
    var q, r := ts / 10000, ts % 10000;
    var a, b := q / 1000, q % 1000;
    SplitSeconds(ts, a, 10000 * b + r);
    SplitMilliseconds(10000 * b + r, b, r);
  }

  lemma SplitSeconds(x: int, q: int, r: int)
    requires 0 <= r < TicksPerSecond && x == TicksPerSecond * q + r
    ensures x % TicksPerSecond == r
  {
  }

  lemma SplitMilliseconds(x: int, q: int, r: int)
    requires 0 <= r < 10000 && x == 10000 * q + r
    ensures x / 10000 == q
  {
  }

  /** A number below 1000 written with three decimal digits, zero-padded
      (std::setw(3) with std::setfill('0')). */
  function Pad3(n: int): (s: string)
    requires 0 <= n < 1000
    ensures |s| == 3 && forall i :: 0 <= i < 3 ==> '0' <= s[i] <= '9'
    ensures (s[0] as int - '0' as int) * 100 + (s[1] as int - '0' as int) * 10
            + (s[2] as int - '0' as int) == n
  {
    [Digit(n / 100), Digit((n / 10) % 10), Digit(n % 10)]
  }

  function Digit(d: int): (c: char)
    requires 0 <= d < 10
    ensures '0' <= c <= '9' && c as int - '0' as int == d
  {
    ('0' as int + d) as char
  }

  /** Position of the first "%~" in the format, if any (std::string::find). */
  function FindMarker(format: string, from: nat): (pos: int)
    requires from <= |format|
    ensures pos == -1 || (from <= pos && pos + 1 < |format| && format[pos] == '%' && format[pos + 1] == '~')
    ensures pos == -1 ==> forall i :: from <= i < |format| - 1 ==> !(format[i] == '%' && format[i + 1] == '~')
    ensures pos != -1 ==> forall i :: from <= i < pos ==> !(format[i] == '%' && format[i + 1] == '~')
    decreases |format| - from
  {
    if from + 1 >= |format| then -1
    else if format[from] == '%' && format[from + 1] == '~' then from
    else FindMarker(format, from + 1)
  }

  /** The format string handed to strftime: the first "%~" is replaced by
      the zero-padded milliseconds of ts; without one it is unchanged. */
  function ExpandMilliseconds(format: string, ts: int): (out: string)
    requires IsUint64(ts)
    ensures FindMarker(format, 0) == -1 ==> out == format
    ensures FindMarker(format, 0) != -1 ==>
              var pos := FindMarker(format, 0);
              |out| == |format| + 1 &&
              out[..pos] == format[..pos] &&
              out[pos..pos + 3] == Pad3(Milliseconds(ts)) &&
              out[pos + 3..] == format[pos + 2..]
  {
    var pos := FindMarker(format, 0);
    if pos == -1 then format
    else format[..pos] + Pad3(Milliseconds(ts)) + format[pos + 2..]
  }
}
