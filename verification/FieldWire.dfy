/** The wire form of an information field, as an independent reference, and the round trip through the decoders. */
module FieldWire {
  import opened Bytes
  import opened Codec

  // ---- Wire form ---------------------------------------------------------------------------------------

  function MotorBytes(m: Motor): (b: bytes)
    ensures |b| == 12
  {
    [m.motorSeq, m.status, m.controllerTemp] + Put16(m.speed) + Put16(m.torque) + [m.temp]
    + Put16(m.voltage) + Put16(m.current)
  }

  function MotorsBytes(ms: seq<Motor>): (b: bytes)
    ensures |b| == 12 * |ms|
  {
    if ms == [] then [] else MotorsBytes(ms[..|ms| - 1]) + MotorBytes(ms[|ms| - 1])
  }

  /** Counted motor records. */
  function MotorListBytes(ms: seq<Motor>): (b: bytes)
    requires |ms| < 256
  {
    [CountByte(|ms|)] + MotorsBytes(ms)
  }

  function CountByte(n: nat): (b: byte)
    requires n < 256
  {
    n
  }

  function FuelCellBytes(f: FuelCell): (b: bytes)
    ensures |b| == 8 + |f.probeTemps| + 13
  {
    FuelCellHead(f) + f.probeTemps + FuelCellTail(f)
  }

  function FuelCellHead(f: FuelCell): (b: bytes)
    ensures |b| == 8
  {
    Put16(f.cellVoltage) + Put16(f.cellCurrent) + Put16(f.consumption) + Put16(f.probeCount)
  }

  function FuelCellTail(f: FuelCell): (b: bytes)
    ensures |b| == 13
  {
    Put16(f.h2MaxTemp) + [f.h2MaxTempProbe] + Put16(f.h2MaxConcentration) + [f.h2MaxConcentrationSensor]
    + Put16(f.h2PressureMax) + [f.h2PressureMaxSensor] + Put16(f.h2PressureMin) + [f.h2PressureMinSensor]
    + [f.dcdcStatus]
  }

  function CellBytes(c: Cell): (b: bytes)
    ensures |b| == 3
  {
    [c.no] + Put16(c.voltage)
  }

  function CellsBytes(cs: seq<Cell>): (b: bytes)
    ensures |b| == 3 * |cs|
  {
    if cs == [] then [] else CellBytes(cs[0]) + CellsBytes(cs[1..])
  }

  function VoltageSubHead(s: VoltageSub): (b: bytes)
    ensures |b| == 7
  {
    [s.no] + Put16(s.voltage) + Put16(s.current) + Put16(s.cellCount)
  }

  function VoltageSubsBytes(ss: seq<VoltageSub>): (b: bytes)
  {
    if ss == [] then [] else VoltageSubHead(ss[0]) + CellsBytes(ss[0].cells) + VoltageSubsBytes(ss[1..])
  }

  function TemperatureSubHead(s: TemperatureSub): (b: bytes)
    ensures |b| == 3
  {
    [s.no] + Put16(s.probeCount)
  }

  function TemperatureSubsBytes(ss: seq<TemperatureSub>): (b: bytes)
  {
    if ss == [] then [] else TemperatureSubHead(ss[0]) + ss[0].probes + TemperatureSubsBytes(ss[1..])
  }

  predicate CellsFull(ss: seq<VoltageSub>)
  {
    forall i :: 0 <= i < |ss| ==> |ss[i].cells| == ss[i].cellCount
  }

  predicate ProbesFull(ss: seq<TemperatureSub>)
  {
    forall i :: 0 <= i < |ss| ==> |ss[i].probes| == ss[i].probeCount
  }

  /** Every list in a field has the announced length; only the subsystem counts may announce more than is there. */
  predicate Full(f: Field)
  {
    match f
    case Vehicle(b) => |b| == 20
    case Motors(ms) => |ms| < 256
    case FuelCellField(c) => |c.probeTemps| == c.probeCount
    case Engine(b) => |b| == 5
    case Position(b) => |b| == 8
    case Extreme(b) => |b| == 10
    case AlarmField(a) => |a.alarmBytes| == a.byteLen < 0x1_0000_0000
    case Voltage(v) => |v.subs| <= v.subsysCount && CellsFull(v.subs)
    case Temperature(t) => |t.subs| <= t.subsysCount && ProbesFull(t.subs)
    case Raw(_) => false
  }

  /** All counts agree with what the field contains. */
  predicate WellFormed(f: Field)
  {
    && Full(f)
    && (f.Voltage? ==> |f.voltage.subs| == f.voltage.subsysCount)
    && (f.Temperature? ==> |f.temperature.subs| == f.temperature.subsysCount)
  }

  function Id(f: Field): byte
  {
    match f
    case Vehicle(_) => VEHICLE
    case Motors(_) => MOTOR
    case FuelCellField(_) => FUEL_CELL
    case Engine(_) => ENGINE
    case Position(_) => POSITION
    case Extreme(_) => EXTREME
    case AlarmField(_) => ALARM
    case Voltage(_) => VOLTAGE
    case Temperature(_) => TEMPERATURE
    case Raw(_) => 0
  }

  function Body(f: Field): bytes
    requires Full(f)
  {
    match f
    case Vehicle(b) => b
    case Motors(ms) => MotorListBytes(ms)
    case FuelCellField(c) => FuelCellBytes(c)
    case Engine(b) => b
    case Position(b) => b
    case Extreme(b) => b
    case AlarmField(a) => [a.maxLevel] + Put32(a.byteLen) + a.alarmBytes
    case Voltage(v) => Put16(v.subsysCount) + VoltageSubsBytes(v.subs)
    case Temperature(t) => Put16(t.subsysCount) + TemperatureSubsBytes(t.subs)
  }

  /** Identifier and body. */
  function Encode(f: Field): bytes
    requires Full(f)
  {
    [Id(f)] + Body(f)
  }

  // ---- Reading it back ---------------------------------------------------------------------------------

  lemma MotorReads(data: bytes, pos: nat, m: Motor)
    requires At(data, pos, MotorBytes(m))
    ensures MotorAt(data, pos) == m
  {
    var s := MotorBytes(m);
    assert forall k: nat :: k < 12 ==> data[pos + k] == data[pos..pos + 12][k] == s[k];
  }

  lemma {:induction false} MotorsRead(data: bytes, ms: seq<Motor>)
    requires At(data, 1, MotorsBytes(ms))
    ensures MotorsOf(data, |ms|) == ms
  {
    if ms != [] {
      var n := |ms| - 1;
      AtSplit(data, 1, MotorsBytes(ms[..n]), MotorBytes(ms[n]));
      MotorsRead(data, ms[..n]);
      MotorReads(data, 1 + 12 * n, ms[n]);
      assert ms == ms[..n] + [ms[n]];
    }
  }

  lemma FuelCellHeadReads(data: bytes, f: FuelCell)
    requires At(data, 0, FuelCellHead(f))
    ensures U16(data, 0) == f.cellVoltage && U16(data, 2) == f.cellCurrent
    ensures U16(data, 4) == f.consumption && U16(data, 6) == f.probeCount
  {
    var s := FuelCellHead(f);
    assert forall k: nat :: k < 8 ==> data[k] == data[0..8][k] == s[k];
  }

  lemma FuelCellTailReads(data: bytes, p: nat, f: FuelCell)
    requires At(data, p, FuelCellTail(f))
    ensures U16(data, p) == f.h2MaxTemp && data[p + 2] == f.h2MaxTempProbe
    ensures U16(data, p + 3) == f.h2MaxConcentration && data[p + 5] == f.h2MaxConcentrationSensor
    ensures U16(data, p + 6) == f.h2PressureMax && data[p + 8] == f.h2PressureMaxSensor
    ensures U16(data, p + 9) == f.h2PressureMin && data[p + 11] == f.h2PressureMinSensor
    ensures data[p + 12] == f.dcdcStatus
  {
    var s := FuelCellTail(f);
    assert forall k: nat :: k < 13 ==> data[p + k] == data[p..p + 13][k] == s[k];
  }

  lemma FuelCellReads(data: bytes, f: FuelCell)
    requires |f.probeTemps| == f.probeCount && data == FuelCellBytes(f)
    ensures FuelCellAt(data, f.probeCount) == f && U16(data, 6) == f.probeCount
  {
    AtWhole(data);
    AtSplit(data, 0, FuelCellHead(f) + f.probeTemps, FuelCellTail(f));
    AtSplit(data, 0, FuelCellHead(f), f.probeTemps);
    FuelCellHeadReads(data, f);
    FuelCellTailReads(data, 8 + |f.probeTemps|, f);
  }

  lemma {:induction false} CellsRead(data: bytes, pos: nat, cs: seq<Cell>)
    requires At(data, pos, CellsBytes(cs))
    ensures CellsAt(data, |cs|, pos) == cs
    decreases |cs|
  {
    if cs != [] {
      AtSplit(data, pos, CellBytes(cs[0]), CellsBytes(cs[1..]));
      AtSplit(data, pos, [cs[0].no], Put16(cs[0].voltage));
      AtU16(data, pos + 1, cs[0].voltage);
      AtIndex(data, pos, [cs[0].no], 0);
      CellsRead(data, pos + 3, cs[1..]);
    }
  }

  lemma VoltageSubReads(data: bytes, pos: nat, s: VoltageSub)
    requires At(data, pos, VoltageSubHead(s) + CellsBytes(s.cells)) && |s.cells| == s.cellCount
    ensures VoltageSubAt(data, pos) == s && U16(data, pos + 5) == s.cellCount
  {
    AtSplit(data, pos, VoltageSubHead(s), CellsBytes(s.cells));
    AtSplit(data, pos, [s.no] + Put16(s.voltage) + Put16(s.current), Put16(s.cellCount));
    AtSplit(data, pos, [s.no] + Put16(s.voltage), Put16(s.current));
    AtSplit(data, pos, [s.no], Put16(s.voltage));
    AtIndex(data, pos, [s.no], 0);
    AtU16(data, pos + 1, s.voltage);
    AtU16(data, pos + 3, s.current);
    AtU16(data, pos + 5, s.cellCount);
    CellsRead(data, pos + 7, s.cells);
  }

  lemma HeadAndTail(ss: seq<VoltageSub>)
    requires ss != []
    ensures ss == [ss[0]] + ss[1..]
  {
  }

  lemma VoltageSubsStep(data: bytes, pos: nat, next: nat, s: VoltageSub, rest: seq<VoltageSub>)
    requires At(data, pos, VoltageSubHead(s) + CellsBytes(s.cells)) && |s.cells| == s.cellCount
    requires next == pos + 7 + 3 * |s.cells| && VoltageSubsAt(data, |rest|, next) == rest
    ensures VoltageSubsAt(data, |rest| + 1, pos) == [s] + rest
  {
    VoltageSubReads(data, pos, s);
  }

  lemma {:induction false} VoltageSubsRead(data: bytes, pos: nat, ss: seq<VoltageSub>)
    requires At(data, pos, VoltageSubsBytes(ss)) && CellsFull(ss)
    ensures VoltageSubsAt(data, |ss|, pos) == ss
    decreases |ss|
  {
    if ss != [] {
      var first := VoltageSubHead(ss[0]) + CellsBytes(ss[0].cells);
      AtSplit(data, pos, first, VoltageSubsBytes(ss[1..]));
      var next, rest := pos + |first|, ss[1..];
      VoltageSubsRead(data, next, rest);
      VoltageSubsStep(data, pos, next, ss[0], rest);
      HeadAndTail(ss);
    }
  }

  lemma TemperatureSubReads(data: bytes, pos: nat, s: TemperatureSub)
    requires At(data, pos, TemperatureSubHead(s) + s.probes) && |s.probes| == s.probeCount
    ensures TemperatureSubAt(data, pos) == s && U16(data, pos + 1) == s.probeCount
  {
    AtSplit(data, pos, TemperatureSubHead(s), s.probes);
    AtSplit(data, pos, [s.no], Put16(s.probeCount));
    AtIndex(data, pos, [s.no], 0);
    AtU16(data, pos + 1, s.probeCount);
  }

  lemma TemperatureSubsStep(data: bytes, pos: nat, next: nat, s: TemperatureSub, rest: seq<TemperatureSub>)
    requires At(data, pos, TemperatureSubHead(s) + s.probes) && |s.probes| == s.probeCount
    requires next == pos + 3 + |s.probes| && TemperatureSubsAt(data, |rest|, next) == rest
    ensures TemperatureSubsAt(data, |rest| + 1, pos) == [s] + rest
  {
    TemperatureSubReads(data, pos, s);
  }

  lemma {:induction false} TemperatureSubsRead(data: bytes, pos: nat, ss: seq<TemperatureSub>)
    requires At(data, pos, TemperatureSubsBytes(ss)) && ProbesFull(ss)
    ensures TemperatureSubsAt(data, |ss|, pos) == ss
    decreases |ss|
  {
    if ss != [] {
      var first := TemperatureSubHead(ss[0]) + ss[0].probes;
      AtSplit(data, pos, first, TemperatureSubsBytes(ss[1..]));
      var next, rest := pos + |first|, ss[1..];
      TemperatureSubsRead(data, next, rest);
      TemperatureSubsStep(data, pos, next, ss[0], rest);
      assert ss == [ss[0]] + rest;
    }
  }

  lemma AlarmReads(data: bytes, a: Alarm)
    requires |a.alarmBytes| == a.byteLen < 0x1_0000_0000
    requires data == [a.maxLevel] + Put32(a.byteLen) + a.alarmBytes
    ensures DecodeAlarm(data) == Ok(AlarmField(a))
  {
    var n := Put32(a.byteLen);
    assert forall k: nat :: k < 4 ==> data[1 + k] == n[k];
    assert data[5..5 + a.byteLen] == a.alarmBytes;
  }

  lemma MotorsRoundTrip(ms: seq<Motor>)
    requires |ms| < 256
    ensures DecodeMotors(MotorListBytes(ms)) == Ok(Motors(ms))
  {
    var data := MotorListBytes(ms);
    AtWhole(data);
    AtHead(data, 0, CountByte(|ms|), MotorsBytes(ms));
    MotorsRead(data, ms);
  }

  lemma VoltageRoundTrip(v: VoltageInfo)
    requires |v.subs| == v.subsysCount && CellsFull(v.subs)
    ensures DecodeVoltage(Put16(v.subsysCount) + VoltageSubsBytes(v.subs)) == Ok(Voltage(v))
  {
    var data := Put16(v.subsysCount) + VoltageSubsBytes(v.subs);
    AtWhole(data);
    AtSplit(data, 0, Put16(v.subsysCount), VoltageSubsBytes(v.subs));
    AtU16(data, 0, v.subsysCount);
    VoltageSubsRead(data, 2, v.subs);
  }

  lemma TemperatureRoundTrip(t: TemperatureInfo)
    requires |t.subs| == t.subsysCount && ProbesFull(t.subs)
    ensures DecodeTemperature(Put16(t.subsysCount) + TemperatureSubsBytes(t.subs)) == Ok(Temperature(t))
  {
    var data := Put16(t.subsysCount) + TemperatureSubsBytes(t.subs);
    AtWhole(data);
    AtSplit(data, 0, Put16(t.subsysCount), TemperatureSubsBytes(t.subs));
    AtU16(data, 0, t.subsysCount);
    TemperatureSubsRead(data, 2, t.subs);
  }

  /** Decoding the body of any well-formed field gives back the field, every count filled. */
  lemma FieldRoundTrip(f: Field)
    requires WellFormed(f)
    ensures DecodeField(Id(f), Body(f)) == Ok(f)
  {
    match f {
      case Motors(ms) => MotorsRoundTrip(ms);
      case FuelCellField(c) => FuelCellReads(Body(f), c);
      case AlarmField(a) => AlarmReads(Body(f), a);
      case Voltage(v) => VoltageRoundTrip(v);
      case Temperature(t) => TemperatureRoundTrip(t);
      case Vehicle(b) => assert b[..20] == b;
      case Engine(b) => assert b[..5] == b;
      case Position(b) => assert b[..8] == b;
      case Extreme(b) => assert b[..10] == b;
    }
  }
}
