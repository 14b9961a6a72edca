/**
 The information fields of a realtime message: what each decoder of package codec reads from its slice, and
 the loops that do it. Vehicle, engine, position and extreme bodies are opaque records of fixed width.
 */
module Codec {
  import opened Bytes

  type uint16 = x: int | 0 <= x < 0x1_0000

  const VEHICLE: byte := 1
  const MOTOR: byte := 2
  const FUEL_CELL: byte := 3
  const ENGINE: byte := 4
  const POSITION: byte := 5
  const EXTREME: byte := 6
  const ALARM: byte := 7
  const VOLTAGE: byte := 8
  const TEMPERATURE: byte := 9

  datatype Motor = Motor(motorSeq: byte, status: byte, controllerTemp: byte, speed: uint16, torque: uint16,
                         temp: byte, voltage: uint16, current: uint16)

  const ZERO_MOTOR := Motor(0, 0, 0, 0, 0, 0, 0, 0)

  datatype FuelCell = FuelCell(cellVoltage: uint16, cellCurrent: uint16, consumption: uint16, probeCount: uint16,
                               probeTemps: bytes, h2MaxTemp: uint16, h2MaxTempProbe: byte,
                               h2MaxConcentration: uint16, h2MaxConcentrationSensor: byte,
                               h2PressureMax: uint16, h2PressureMaxSensor: byte,
                               h2PressureMin: uint16, h2PressureMinSensor: byte, dcdcStatus: byte)

  datatype Alarm = Alarm(maxLevel: byte, byteLen: nat, alarmBytes: bytes)

  datatype Cell = Cell(no: byte, voltage: uint16)

  datatype VoltageSub = VoltageSub(no: byte, voltage: uint16, current: uint16, cellCount: uint16, cells: seq<Cell>)

  datatype VoltageInfo = VoltageInfo(subsysCount: uint16, subs: seq<VoltageSub>)

  datatype TemperatureSub = TemperatureSub(no: byte, probeCount: uint16, probes: bytes)

  datatype TemperatureInfo = TemperatureInfo(subsysCount: uint16, subs: seq<TemperatureSub>)

  /** A decoded field; Raw is the slice itself, for identifiers without a decoder. */
  datatype Field =
    | Vehicle(vehicle: bytes)
    | Motors(motors: seq<Motor>)
    | FuelCellField(fuelCell: FuelCell)
    | Engine(engine: bytes)
    | Position(position: bytes)
    | Extreme(extreme: bytes)
    | AlarmField(alarm: Alarm)
    | Voltage(voltage: VoltageInfo)
    | Temperature(temperature: TemperatureInfo)
    | Raw(raw: bytes)

  datatype CodecError = TooShort | Truncated

  type Decoded = Result<Field, CodecError>

  // ---- What the decoders compute -----------------------------------------------------------------------

  function MotorAt(data: bytes, pos: nat): Motor
    requires pos + 12 <= |data|
  {
    Motor(data[pos], data[pos + 1], data[pos + 2], U16(data, pos + 3), U16(data, pos + 5), data[pos + 7],
          U16(data, pos + 8), U16(data, pos + 10))
  }

  /** The i-th of the counted records, zero when the data ends before it. */
  function MotorOrZero(data: bytes, i: nat): Motor
  {
    if 1 + 12 * i + 12 <= |data| then MotorAt(data, 1 + 12 * i) else ZERO_MOTOR
  }

  function MotorsOf(data: bytes, count: nat): seq<Motor>
  {
    if count == 0 then [] else MotorsOf(data, count - 1) + [MotorOrZero(data, count - 1)]
  }

  function FuelCellAt(data: bytes, n: uint16): FuelCell
    requires 8 + n + 13 <= |data|
  {
    var p: nat := 8 + n;
    FuelCell(U16(data, 0), U16(data, 2), U16(data, 4), n, data[8..p], U16(data, p), data[p + 2], U16(data, p + 3),
             data[p + 5], U16(data, p + 6), data[p + 8], U16(data, p + 9), data[p + 11], data[p + 12])
  }

  function DecodeFuelCell(data: bytes): Decoded
  {
    if |data| < 8 then Err(TooShort)
    else if |data| < 8 + U16(data, 6) + 13 then Err(Truncated)
    else Ok(FuelCellField(FuelCellAt(data, U16(data, 6))))
  }

  function DecodeAlarm(data: bytes): Decoded
  {
    if |data| < 5 then Err(TooShort)
    else if U32(data, 1) > |data| - 5 then Err(Truncated)
    else Ok(AlarmField(Alarm(data[0], U32(data, 1), data[5..5 + U32(data, 1)])))
  }

  function CellsAt(data: bytes, n: nat, pos: nat): (cells: seq<Cell>)
    ensures |cells| <= n
    ensures pos <= |data| ==> pos + 3 * |cells| <= |data|
  {
    if n == 0 || pos + 3 > |data| then []
    else [Cell(data[pos], U16(data, pos + 1))] + CellsAt(data, n - 1, pos + 3)
  }

  function VoltageSubAt(data: bytes, pos: nat): (s: VoltageSub)
    requires pos + 7 <= |data|
  {
    VoltageSub(data[pos], U16(data, pos + 1), U16(data, pos + 3), U16(data, pos + 5),
               CellsAt(data, U16(data, pos + 5), pos + 7))
  }

  function VoltageSubsAt(data: bytes, n: nat, pos: nat): seq<VoltageSub>
    decreases n
  {
    if n == 0 || pos + 7 > |data| then []
    else
      var s := VoltageSubAt(data, pos);
      [s] + VoltageSubsAt(data, n - 1, pos + 7 + 3 * |s.cells|)
  }

  function TemperatureSubAt(data: bytes, pos: nat): (s: TemperatureSub)
    requires pos + 3 <= |data|
    ensures |s.probes| <= s.probeCount && pos + 3 + |s.probes| <= |data|
  {
    var n := U16(data, pos + 1);
    var m := if pos + 3 + n > |data| then |data| - pos - 3 else n;
    TemperatureSub(data[pos], n, data[pos + 3..pos + 3 + m])
  }

  function TemperatureSubsAt(data: bytes, n: nat, pos: nat): seq<TemperatureSub>
    decreases n
  {
    if n == 0 || pos + 3 > |data| then []
    else
      var s := TemperatureSubAt(data, pos);
      [s] + TemperatureSubsAt(data, n - 1, pos + 3 + |s.probes|)
  }

  function DecodeVoltage(data: bytes): Decoded
  {
    if |data| < 2 then Err(TooShort)
    else Ok(Voltage(VoltageInfo(U16(data, 0), VoltageSubsAt(data, U16(data, 0), 2))))
  }

  function DecodeTemperature(data: bytes): Decoded
  {
    if |data| < 2 then Err(TooShort)
    else Ok(Temperature(TemperatureInfo(U16(data, 0), TemperatureSubsAt(data, U16(data, 0), 2))))
  }

  function DecodeMotors(data: bytes): Decoded
  {
    if |data| < 1 then Err(TooShort) else Ok(Motors(MotorsOf(data, data[0])))
  }

  predicate HasDecoder(id: byte)
  {
    1 <= id <= 9
  }

  function DecodeFixed(data: bytes, width: nat, wrap: bytes -> Field): Decoded
  {
    if |data| < width then Err(TooShort) else Ok(wrap(data[..width]))
  }

  /** The dispatch of DecodeField. */
  function DecodeField(id: byte, data: bytes): Decoded
  {
    if id == VEHICLE then DecodeFixed(data, 20, b => Vehicle(b))
    else if id == MOTOR then DecodeMotors(data)
    else if id == FUEL_CELL then DecodeFuelCell(data)
    else if id == ENGINE then DecodeFixed(data, 5, b => Engine(b))
    else if id == POSITION then DecodeFixed(data, 8, b => Position(b))
    else if id == EXTREME then DecodeFixed(data, 10, b => Extreme(b))
    else if id == ALARM then DecodeAlarm(data)
    else if id == VOLTAGE then DecodeVoltage(data)
    else if id == TEMPERATURE then DecodeTemperature(data)
    else Ok(Raw(data))
  }

  // ---- The decoders' loops -----------------------------------------------------------------------------

  method DecodeMotorData(data: bytes) returns (r: Decoded)
    ensures r == DecodeMotors(data)
  {
    if |data| < 1 {
      return Err(TooShort);
    }
    var count: nat := data[0];
    var pos := 1;
    var motors := new Motor[count](_ => ZERO_MOTOR);
    var i := 0;
    while i < count
      invariant 0 <= i <= count && pos == 1 + 12 * i
      invariant motors[..i] == MotorsOf(data, i)
      invariant forall k :: i <= k < count ==> motors[k] == ZERO_MOTOR
    {
      if pos + 12 > |data| {
        break;
      }
      motors[i] := MotorAt(data, pos);
      pos := pos + 12;
      i := i + 1;
      assert motors[..i] == motors[..i - 1] + [motors[i - 1]];
    }
    RestIsZero(data, i, count, motors[..]);
    return Ok(Motors(motors[..]));
  }

  lemma {:induction false} RestIsZero(data: bytes, i: nat, count: nat, ms: seq<Motor>)
    requires i <= count == |ms| && ms[..i] == MotorsOf(data, i)
    requires i < count ==> 1 + 12 * i + 12 > |data|
    requires forall k :: i <= k < count ==> ms[k] == ZERO_MOTOR
    ensures ms == MotorsOf(data, count)
    decreases count
  {
    if i < count {
      assert ms[..count - 1][..i] == ms[..i];
      RestIsZero(data, i, count - 1, ms[..count - 1]);
      assert ms == ms[..count - 1] + [ms[count - 1]];
    } else {
      assert ms[..i] == ms;
    }
  }

  method DecodeFuelCellData(data: bytes) returns (r: Decoded)
    ensures r == DecodeFuelCell(data)
  {
    if |data| < 8 {
      return Err(TooShort);
    }
    var pos := 0;
    var cellVoltage := U16(data, pos);
    pos := pos + 2;
    var cellCurrent := U16(data, pos);
    pos := pos + 2;
    var consumption := U16(data, pos);
    pos := pos + 2;
    var probeCount := U16(data, pos);
    pos := pos + 2;
    if |data| < pos + probeCount + 13 {
      return Err(Truncated);
    }
    var probeTemps := data[pos..pos + probeCount];
    pos := pos + probeCount;
    var h2MaxTemp, h2MaxTempProbe := U16(data, pos), data[pos + 2];
    pos := pos + 3;
    var h2MaxConcentration, h2MaxConcentrationSensor := U16(data, pos), data[pos + 2];
    pos := pos + 3;
    var h2PressureMax, h2PressureMaxSensor := U16(data, pos), data[pos + 2];
    pos := pos + 3;
    var h2PressureMin, h2PressureMinSensor := U16(data, pos), data[pos + 2];
    pos := pos + 3;
    var dcdcStatus := data[pos];
    r := Ok(FuelCellField(FuelCell(cellVoltage, cellCurrent, consumption, probeCount, probeTemps, h2MaxTemp,
                                   h2MaxTempProbe, h2MaxConcentration, h2MaxConcentrationSensor, h2PressureMax,
                                   h2PressureMaxSensor, h2PressureMin, h2PressureMinSensor, dcdcStatus)));
  }

  method DecodeAlarmData(data: bytes) returns (r: Decoded)
    ensures r == DecodeAlarm(data)
  {
    if |data| < 5 {
      return Err(TooShort);
    }
    var pos := 0;
    var maxLevel := data[pos];
    pos := pos + 1;
    var byteLen := U32(data, pos);
    pos := pos + 4;
    if byteLen > |data| - pos {
      return Err(Truncated);
    }
    return Ok(AlarmField(Alarm(maxLevel, byteLen, data[pos..pos + byteLen])));
  }

  method DecodeVoltageData(data: bytes) returns (r: Decoded)
    ensures r == DecodeVoltage(data)
  {
    if |data| < 2 {
      return Err(TooShort);
    }
    var subsysCount := U16(data, 0);
    ghost var whole := VoltageSubsAt(data, subsysCount, 2);
    var pos: nat := 2;
    var subs: seq<VoltageSub> := [];
    var i := 0;
    while i < subsysCount
      invariant 0 <= i <= subsysCount
      invariant whole == subs + VoltageSubsAt(data, subsysCount - i, pos)
    {
      if pos + 7 > |data| {
        break;
      }
      ghost var start := pos;
      var no, voltage, current, cellCount :=
        data[pos], U16(data, pos + 1), U16(data, pos + 3), U16(data, pos + 5);
      pos := pos + 7;
      var cells: seq<Cell>;
      cells, pos := ReadCells(data, pos, cellCount);
      var sub := VoltageSub(no, voltage, current, cellCount, cells);
      assert sub == VoltageSubAt(data, start);
      ghost var later := VoltageSubsAt(data, subsysCount - i - 1, pos);
      assert VoltageSubsAt(data, subsysCount - i, start) == [sub] + later;
      SnocCons(subs, sub, later);
      subs := subs + [sub];
      i := i + 1;
    }
    assert VoltageSubsAt(data, subsysCount - i, pos) == [];
    assert subs + [] == subs;
    return Ok(Voltage(VoltageInfo(subsysCount, subs)));
  }

  method ReadCells(data: bytes, start: nat, cellCount: nat) returns (cells: seq<Cell>, pos: nat)
    ensures cells == CellsAt(data, cellCount, start) && pos == start + 3 * |cells|
  {
    cells, pos := [], start;
    var j := 0;
    while j < cellCount
      invariant 0 <= j <= cellCount && pos == start + 3 * |cells|
      invariant CellsAt(data, cellCount, start) == cells + CellsAt(data, cellCount - j, pos)
    {
      if pos + 3 > |data| {
        break;
      }
      var cell := Cell(data[pos], U16(data, pos + 1));
      SnocCons(cells, cell, CellsAt(data, cellCount - j - 1, pos + 3));
      pos := pos + 3;
      cells := cells + [cell];
      j := j + 1;
    }
  }

  method DecodeTemperatureData(data: bytes) returns (r: Decoded)
    ensures r == DecodeTemperature(data)
  {
    if |data| < 2 {
      return Err(TooShort);
    }
    var subsysCount := U16(data, 0);
    ghost var whole := TemperatureSubsAt(data, subsysCount, 2);
    var pos: nat := 2;
    var subs: seq<TemperatureSub> := [];
    var i := 0;
    while i < subsysCount
      invariant 0 <= i <= subsysCount && pos <= |data|
      invariant whole == subs + TemperatureSubsAt(data, subsysCount - i, pos)
    {
      if pos + 3 > |data| {
        break;
      }
      ghost var start := pos;
      var no, probeCount := data[pos], U16(data, pos + 1);
      pos := pos + 3;
      var probeCnt := probeCount;
      if pos + probeCnt > |data| {
        probeCnt := |data| - pos;
      }
      var sub := TemperatureSub(no, probeCount, data[pos..pos + probeCnt]);
      assert sub == TemperatureSubAt(data, start);
      pos := pos + probeCnt;
      ghost var later := TemperatureSubsAt(data, subsysCount - i - 1, pos);
      assert TemperatureSubsAt(data, subsysCount - i, start) == [sub] + later;
      SnocCons(subs, sub, later);
      subs := subs + [sub];
      i := i + 1;
    }
    assert TemperatureSubsAt(data, subsysCount - i, pos) == [];
    assert subs + [] == subs;
    return Ok(Temperature(TemperatureInfo(subsysCount, subs)));
  }

  method DecodeFieldData(id: byte, data: bytes) returns (r: Decoded)
    ensures r == DecodeField(id, data)
  {
    match id {
      case 2 => r := DecodeMotorData(data);
      case 3 => r := DecodeFuelCellData(data);
      case 7 => r := DecodeAlarmData(data);
      case 8 => r := DecodeVoltageData(data);
      case 9 => r := DecodeTemperatureData(data);
      case _ => r := DecodeField(id, data);
    }
  }
}
