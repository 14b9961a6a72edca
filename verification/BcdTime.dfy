/** Six-byte times: BCD as the standard prescribes, or plain binary for non-standard terminals. */
module BcdTime {
  import opened Bytes

  datatype TimeCodec = BCD | Binary

  /** A point in UTC time to the second. */
  datatype Time = Time(year: int, month: int, day: int, hour: int, minute: int, second: int)

  function DaysIn(year: int, month: int): int
  {
    if month in {4, 6, 9, 11} then 30
    else if month == 2 then (if year % 4 == 0 && (year % 100 != 0 || year % 400 == 0) then 29 else 28)
    else 31
  }

  predicate IsCalendarTime(t: Time)
  {
    && 1 <= t.month <= 12 && 1 <= t.day <= DaysIn(t.year, t.month)
    && 0 <= t.hour < 24 && 0 <= t.minute < 60 && 0 <= t.second < 60
  }

  function ParseBCDByte(b: byte): int
  {
    b / 16 * 10 + b % 16
  }

  function ParseBCD(b: bytes): Time
    requires |b| == 6
  {
    Time(2000 + ParseBCDByte(b[0]), ParseBCDByte(b[1]), ParseBCDByte(b[2]),
         ParseBCDByte(b[3]), ParseBCDByte(b[4]), ParseBCDByte(b[5]))
  }

  function ParseBinary(b: bytes): Time
    requires |b| == 6
  {
    Time(2000 + (b[0] as int), b[1], b[2], b[3], b[4], b[5])
  }

  function DecodeTime(codec: TimeCodec, b: bytes): Time
    requires |b| == 6
  {
    if codec == Binary then ParseBinary(b) else ParseBCD(b)
  }

  /** Go's `/` and `%`, which truncate toward zero. */
  function Quo(a: int, b: int): int
    requires b > 0
  {
    if a >= 0 then a / b else -(-a / b)
  }

  function Rem(a: int, b: int): int
    requires b > 0
  {
    a - b * Quo(a, b)
  }

  /**
   `byte((v/10)<<4 | (v%10))`. The low nibble of the shifted quotient is zero; a negative remainder is, in two's
   complement, all ones above its low nibble.
   */
  function EncodeBCDByte(v: int): byte
  {
    var q, r := Quo(v, 10), Rem(v, 10);
    (if r < 0 then 15 else q % 16) * 16 + r % 16
  }

  function EncodeBCD(t: Time): (b: bytes)
    ensures |b| == 6
  {
    [EncodeBCDByte(t.year - 2000), EncodeBCDByte(t.month), EncodeBCDByte(t.day),
     EncodeBCDByte(t.hour), EncodeBCDByte(t.minute), EncodeBCDByte(t.second)]
  }

  lemma BCDByteRoundTrip(v: int)
    ensures ParseBCDByte(EncodeBCDByte(v)) == v <==> 0 <= v < 160
  {
    var q, r := Quo(v, 10), Rem(v, 10);
    assert v == 10 * q + r;
    var b := EncodeBCDByte(v);
    if v >= 0 {
      assert 0 <= r < 10 && b / 16 == q % 16 && b % 16 == r;
    }
  }

  /** An encoded calendar time is read back unchanged exactly when its year is in 2000..2159. */
  lemma TimeRoundTripIff(t: Time)
    requires IsCalendarTime(t)
    ensures ParseBCD(EncodeBCD(t)) == t <==> 2000 <= t.year < 2160
  {
    BCDByteRoundTrip(t.year - 2000);
    BCDByteRoundTrip(t.month);
    BCDByteRoundTrip(t.day);
    BCDByteRoundTrip(t.hour);
    BCDByteRoundTrip(t.minute);
    BCDByteRoundTrip(t.second);
  }

  /** Go's `byte(v)`. */
  function Truncated(v: int): byte
  {
    v % 256
  }

  /** The binary form keeps the year within its century. */
  function EncodeBinary(t: Time): (b: bytes)
    ensures |b| == 6
  {
    [Truncated(Rem(t.year, 100)), Truncated(t.month), Truncated(t.day),
     Truncated(t.hour), Truncated(t.minute), Truncated(t.second)]
  }

  /** In binary form, a calendar time is read back unchanged exactly when its year is in 2000..2099. */
  lemma BinaryRoundTripIff(t: Time)
    requires IsCalendarTime(t)
    ensures ParseBinary(EncodeBinary(t)) == t <==> 2000 <= t.year < 2100
  {
    if t.year >= 0 {
      assert Rem(t.year, 100) == t.year % 100;
    }
  }
}
