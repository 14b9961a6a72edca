/**
 Where a field ends (findFieldEnd), and the agreement between that scan and the decoders: whatever extent the
 scan returns inside the buffer, the matching decoder reads that slice without loss.
 */
module FieldExtent {
  import opened Bytes
  import opened Codec
  import opened FieldWire

  // ---- The scan ----------------------------------------------------------------------------------------

  function VoltageEnd(data: bytes, n: nat, end: nat): (e: nat)
    ensures e >= end
    decreases n
  {
    if n == 0 || end + 7 > |data| then end
    else VoltageEnd(data, n - 1, end + 7 + U16(data, end + 5) * 3)
  }

  function TemperatureEnd(data: bytes, n: nat, end: nat): (e: nat)
    ensures e >= end
    decreases n
  {
    if n == 0 || end + 3 > |data| then end
    else TemperatureEnd(data, n - 1, end + 3 + U16(data, end + 1))
  }

  /** End of the field body that starts at `pos`; -1 when its fixed part has not arrived. May lie beyond the data. */
  function FieldEnd(id: byte, data: bytes, pos: nat): (e: int)
    ensures e == -1 || e >= pos
  {
    if id == VEHICLE && pos + 20 <= |data| then pos + 20
    else if id == MOTOR && pos + 1 <= |data| then pos + 1 + (data[pos] as int) * 12
    else if id == FUEL_CELL && pos + 8 <= |data| then pos + 8 + U16(data, pos + 6) + 13
    else if id == ENGINE && pos + 5 <= |data| then pos + 5
    else if id == POSITION && pos + 8 <= |data| then pos + 8
    else if id == EXTREME && pos + 10 <= |data| then pos + 10
    else if id == ALARM && pos + 5 <= |data| then pos + 5 + U32(data, 1)
    else if id == VOLTAGE && pos + 2 <= |data| then VoltageEnd(data, U16(data, pos), pos + 2)
    else if id == TEMPERATURE && pos + 2 <= |data| then TemperatureEnd(data, U16(data, pos), pos + 2)
    else -1
  }

  method FindFieldEnd(id: byte, data: bytes, pos: nat) returns (e: int)
    ensures e == FieldEnd(id, data, pos)
  {
    match id {
      case 1 => if pos + 20 <= |data| { return pos + 20; }
      case 2 =>
        if pos + 1 <= |data| {
          var count: int := data[pos];
          return pos + 1 + count * 12;
        }
      case 3 =>
        if pos + 8 <= |data| {
          var probeCnt := U16(data, pos + 6);
          return pos + 8 + probeCnt + 13;
        }
      case 4 => if pos + 5 <= |data| { return pos + 5; }
      case 5 => if pos + 8 <= |data| { return pos + 8; }
      case 6 => if pos + 10 <= |data| { return pos + 10; }
      case 7 =>
        if pos + 5 <= |data| {
          var alarmLen := U32(data, 1);
          return pos + 5 + alarmLen;
        }
      case 8 =>
        if pos + 2 <= |data| {
          var subCnt := U16(data, pos);
          var end: nat := pos + 2;
          var i := 0;
          while i < subCnt && end < |data|
            invariant 0 <= i <= subCnt
            invariant VoltageEnd(data, subCnt, pos + 2) == VoltageEnd(data, subCnt - i, end)
          {
            if end + 7 > |data| {
              break;
            }
            end := end + 7;
            var cellCnt := U16(data, end - 2);
            end := end + cellCnt * 3;
            i := i + 1;
          }
          return end;
        }
      case 9 =>
        if pos + 2 <= |data| {
          var subCnt := U16(data, pos);
          var end: nat := pos + 2;
          var i := 0;
          while i < subCnt && end < |data|
            invariant 0 <= i <= subCnt
            invariant TemperatureEnd(data, subCnt, pos + 2) == TemperatureEnd(data, subCnt - i, end)
          {
            if end + 3 > |data| {
              break;
            }
            end := end + 3;
            var probeCnt := U16(data, end - 2);
            end := end + probeCnt;
            i := i + 1;
          }
          return end;
        }
      case _ =>
    }
    return -1;
  }

  // ---- Agreement with the decoders ---------------------------------------------------------------------

  lemma MotorWrites(data: bytes, pos: nat)
    requires pos + 12 <= |data|
    ensures MotorBytes(MotorAt(data, pos)) == data[pos..pos + 12]
  {
    var m := MotorAt(data, pos);
    Put16Reads(data, pos + 3);
    Put16Reads(data, pos + 5);
    Put16Reads(data, pos + 8);
    Put16Reads(data, pos + 10);
    var l, r := MotorBytes(m), data[pos..pos + 12];
    assert forall k: nat :: k < 12 ==> l[k] == r[k];
  }

  lemma {:induction false} MotorsWrite(data: bytes, n: nat)
    requires 1 + 12 * n <= |data|
    ensures |MotorsOf(data, n)| == n && MotorsBytes(MotorsOf(data, n)) == data[1..1 + 12 * n]
  {
    if n > 0 {
      MotorsWrite(data, n - 1);
      var ms := MotorsOf(data, n);
      assert ms[..n - 1] == MotorsOf(data, n - 1);
      MotorWrites(data, 1 + 12 * (n - 1));
      JoinSlices(data, 1, 1 + 12 * (n - 1), 1 + 12 * n);
    }
  }

  lemma FuelCellWrites(data: bytes)
    requires |data| >= 8 && |data| == 8 + U16(data, 6) + 13
    ensures FuelCellBytes(FuelCellAt(data, U16(data, 6))) == data
  {
    var n: nat := U16(data, 6);
    var f, p := FuelCellAt(data, n), 8 + n;
    FuelCellHeadWrites(data, f);
    FuelCellTailWrites(data, p, f);
    JoinSlices(data, 0, 8, p);
    JoinSlices(data, 0, p, p + 13);
    assert data[0..p + 13] == data;
  }

  lemma FuelCellHeadWrites(data: bytes, f: FuelCell)
    requires |data| >= 8 && f.cellVoltage == U16(data, 0) && f.cellCurrent == U16(data, 2)
    requires f.consumption == U16(data, 4) && f.probeCount == U16(data, 6)
    ensures FuelCellHead(f) == data[0..8]
  {
    Put16Reads(data, 0);
    Put16Reads(data, 2);
    Put16Reads(data, 4);
    Put16Reads(data, 6);
    assert forall k: nat :: k < 8 ==> FuelCellHead(f)[k] == data[k];
  }

  lemma FuelCellTailWrites(data: bytes, p: nat, f: FuelCell)
    requires p + 13 <= |data|
    requires f.h2MaxTemp == U16(data, p) && f.h2MaxTempProbe == data[p + 2]
    requires f.h2MaxConcentration == U16(data, p + 3) && f.h2MaxConcentrationSensor == data[p + 5]
    requires f.h2PressureMax == U16(data, p + 6) && f.h2PressureMaxSensor == data[p + 8]
    requires f.h2PressureMin == U16(data, p + 9) && f.h2PressureMinSensor == data[p + 11]
    requires f.dcdcStatus == data[p + 12]
    ensures FuelCellTail(f) == data[p..p + 13]
  {
    Put16Reads(data, p);
    Put16Reads(data, p + 3);
    Put16Reads(data, p + 6);
    Put16Reads(data, p + 9);
    var l, r := FuelCellTail(f), data[p..p + 13];
    assert forall k: nat :: k < 13 ==> l[k] == r[k];
  }

  lemma {:induction false} CellsWrite(data: bytes, n: nat, pos: nat)
    requires pos + 3 * n <= |data|
    ensures |CellsAt(data, n, pos)| == n && CellsBytes(CellsAt(data, n, pos)) == data[pos..pos + 3 * n]
    decreases n
  {
    if n > 0 {
      CellsWrite(data, n - 1, pos + 3);
      Put16Reads(data, pos + 1);
      var c := Cell(data[pos], U16(data, pos + 1));
      assert CellBytes(c) == data[pos..pos + 3];
      JoinSlices(data, pos, pos + 3, pos + 3 * n);
    }
  }

  lemma VoltageSubWrites(data: bytes, pos: nat)
    requires pos + 7 <= |data| && pos + 7 + 3 * U16(data, pos + 5) <= |data|
    ensures var s := VoltageSubAt(data, pos);
            && |s.cells| == s.cellCount == U16(data, pos + 5)
            && VoltageSubHead(s) + CellsBytes(s.cells) == data[pos..pos + 7 + 3 * |s.cells|]
  {
    var s, n := VoltageSubAt(data, pos), U16(data, pos + 5);
    Put16Reads(data, pos + 1);
    Put16Reads(data, pos + 3);
    Put16Reads(data, pos + 5);
    var l, r := VoltageSubHead(s), data[pos..pos + 7];
    assert forall k: nat :: k < 7 ==> l[k] == r[k];
    CellsWrite(data, n, pos + 7);
    JoinSlices(data, pos, pos + 7, pos + 7 + 3 * n);
  }

  /** A scan that ends exactly at the end of the slice has delimited complete subsystems only. */
  lemma {:induction false} VoltageSubsWrite(data: bytes, n: nat, pos: nat)
    requires pos <= |data| && VoltageEnd(data, n, pos) == |data|
    ensures var ss := VoltageSubsAt(data, n, pos);
            && |ss| <= n && CellsFull(ss)
            && VoltageSubsBytes(ss) == data[pos..]
    decreases n
  {
    if n > 0 && pos + 7 <= |data| {
      var next := pos + 7 + U16(data, pos + 5) * 3;
      VoltageSubWrites(data, pos);
      var s := VoltageSubAt(data, pos);
      assert next == pos + 7 + 3 * |s.cells|;
      VoltageSubsWrite(data, n - 1, next);
      var rest := VoltageSubsAt(data, n - 1, next);
      assert VoltageSubsAt(data, n, pos) == [s] + rest;
      ConsVoltageSub(s, rest, data, pos, next);
    }
  }

  lemma ConsVoltageSub(s: VoltageSub, rest: seq<VoltageSub>, data: bytes, pos: nat, next: nat)
    requires pos <= next <= |data| && VoltageSubHead(s) + CellsBytes(s.cells) == data[pos..next]
    requires VoltageSubsBytes(rest) == data[next..] && CellsFull(rest) && |s.cells| == s.cellCount
    ensures VoltageSubsBytes([s] + rest) == data[pos..] && CellsFull([s] + rest)
  {
    assert ([s] + rest)[1..] == rest;
    JoinSlices(data, pos, next, |data|);
  }

  lemma TemperatureSubWrites(data: bytes, pos: nat)
    requires pos + 3 <= |data| && pos + 3 + U16(data, pos + 1) <= |data|
    ensures var s := TemperatureSubAt(data, pos);
            && |s.probes| == s.probeCount == U16(data, pos + 1)
            && TemperatureSubHead(s) + s.probes == data[pos..pos + 3 + |s.probes|]
  {
    var s, n := TemperatureSubAt(data, pos), U16(data, pos + 1);
    Put16Reads(data, pos + 1);
    assert TemperatureSubHead(s) == data[pos..pos + 3];
    JoinSlices(data, pos, pos + 3, pos + 3 + n);
  }

  lemma ConsTemperatureSub(s: TemperatureSub, rest: seq<TemperatureSub>, data: bytes, pos: nat, next: nat)
    requires pos <= next <= |data| && TemperatureSubHead(s) + s.probes == data[pos..next]
    requires TemperatureSubsBytes(rest) == data[next..] && ProbesFull(rest) && |s.probes| == s.probeCount
    ensures TemperatureSubsBytes([s] + rest) == data[pos..] && ProbesFull([s] + rest)
  {
    assert ([s] + rest)[1..] == rest;
    JoinSlices(data, pos, next, |data|);
  }

  lemma {:induction false} TemperatureSubsWrite(data: bytes, n: nat, pos: nat)
    requires pos <= |data| && TemperatureEnd(data, n, pos) == |data|
    ensures var ss := TemperatureSubsAt(data, n, pos);
            && |ss| <= n && ProbesFull(ss)
            && TemperatureSubsBytes(ss) == data[pos..]
    decreases n
  {
    if n > 0 && pos + 3 <= |data| {
      var next := pos + 3 + U16(data, pos + 1);
      TemperatureSubWrites(data, pos);
      var s := TemperatureSubAt(data, pos);
      assert next == pos + 3 + |s.probes|;
      TemperatureSubsWrite(data, n - 1, next);
      var rest := TemperatureSubsAt(data, n - 1, next);
      assert TemperatureSubsAt(data, n, pos) == [s] + rest;
      ConsTemperatureSub(s, rest, data, pos, next);
    }
  }

  lemma SliceU16(data: bytes, pos: nat, e: nat, q: nat)
    requires pos + q + 2 <= e <= |data|
    ensures U16(data[pos..e], q) == U16(data, pos + q)
  {
  }

  lemma {:induction false} VoltageEndSlice(data: bytes, n: nat, end: nat, pos: nat, e: nat)
    requires pos <= end && VoltageEnd(data, n, end) == e <= |data|
    ensures VoltageEnd(data[pos..e], n, end - pos) == e - pos
    decreases n
  {
    if n > 0 && end + 7 <= |data| {
      SliceU16(data, pos, e, end - pos + 5);
      VoltageEndSlice(data, n - 1, end + 7 + U16(data, end + 5) * 3, pos, e);
    }
  }

  lemma {:induction false} TemperatureEndSlice(data: bytes, n: nat, end: nat, pos: nat, e: nat)
    requires pos <= end && TemperatureEnd(data, n, end) == e <= |data|
    ensures TemperatureEnd(data[pos..e], n, end - pos) == e - pos
    decreases n
  {
    if n > 0 && end + 3 <= |data| {
      SliceU16(data, pos, e, end - pos + 1);
      TemperatureEndSlice(data, n - 1, end + 3 + U16(data, end + 1), pos, e);
    }
  }

  /** The slice is read without loss: the decoder succeeds and the field it returns, all lists full, encodes to it. */
  predicate ReadsAll(id: byte, slice: bytes)
  {
    var r := DecodeField(id, slice);
    r.Ok? && Full(r.value) && Id(r.value) == id && Body(r.value) == slice
  }

  lemma VoltageBodyIs(v: VoltageInfo, slice: bytes)
    requires Full(Voltage(v)) && |slice| >= 2
    requires v.subsysCount == U16(slice, 0) && VoltageSubsBytes(v.subs) == slice[2..]
    ensures Body(Voltage(v)) == slice
  {
    Put16Reads(slice, 0);
    JoinSlices(slice, 0, 2, |slice|);
  }

  lemma VoltageReadsAll(slice: bytes)
    requires |slice| >= 2 && VoltageEnd(slice, U16(slice, 0), 2) == |slice|
    ensures ReadsAll(VOLTAGE, slice)
  {
    VoltageSubsWrite(slice, U16(slice, 0), 2);
    var v := VoltageInfo(U16(slice, 0), VoltageSubsAt(slice, U16(slice, 0), 2));
    VoltageBodyIs(v, slice);
  }

  lemma TemperatureBodyIs(t: TemperatureInfo, slice: bytes)
    requires Full(Temperature(t)) && |slice| >= 2
    requires t.subsysCount == U16(slice, 0) && TemperatureSubsBytes(t.subs) == slice[2..]
    ensures Body(Temperature(t)) == slice
  {
    Put16Reads(slice, 0);
    JoinSlices(slice, 0, 2, |slice|);
  }

  lemma TemperatureReadsAll(slice: bytes)
    requires |slice| >= 2 && TemperatureEnd(slice, U16(slice, 0), 2) == |slice|
    ensures ReadsAll(TEMPERATURE, slice)
  {
    TemperatureSubsWrite(slice, U16(slice, 0), 2);
    var t := TemperatureInfo(U16(slice, 0), TemperatureSubsAt(slice, U16(slice, 0), 2));
    TemperatureBodyIs(t, slice);
  }

  lemma MotorReadsAll(slice: bytes)
    requires |slice| >= 1 && |slice| == 1 + 12 * (slice[0] as int)
    ensures ReadsAll(MOTOR, slice)
  {
    MotorsWrite(slice, slice[0]);
    assert slice == [slice[0]] + slice[1..];
  }

  lemma AlarmReadsAll(slice: bytes)
    requires |slice| >= 5
    ensures ReadsAll(ALARM, slice) <==> |slice| == 5 + U32(slice, 1)
  {
    var n := U32(slice, 1);
    if |slice| == 5 + n {
      Put16Reads(slice, 1);
      Put16Reads(slice, 3);
      assert n / 0x1_0000 == U16(slice, 1) && n % 0x1_0000 == U16(slice, 3);
      assert slice == [slice[0]] + (slice[1..3] + slice[3..5]) + slice[5..];
    }
  }

  /**
   Scanner and decoder agree: for every buffer, position and identifier, an end inside the buffer delimits a slice
   the matching decoder reads without loss. An alarm is the exception: its slice is read without loss exactly when
   the length the scan reads, always at offset 1 of the buffer, equals the one the field carries.
   */
  lemma ScanAgreesWithDecoder(id: byte, data: bytes, pos: nat)
    requires HasDecoder(id) && 0 <= FieldEnd(id, data, pos) <= |data|
    ensures ReadsAll(id, data[pos..FieldEnd(id, data, pos)])
            <==> (id == ALARM ==> U32(data, 1) == U32(data, pos + 1))
  {
    var e := FieldEnd(id, data, pos);
    var slice := data[pos..e];
    match id {
      case 2 => MotorReadsAll(slice);
      case 3 =>
        SliceU16(data, pos, e, 6);
        FuelCellWrites(slice);
      case 7 =>
        SliceU16(data, pos, e, 1);
        SliceU16(data, pos, e, 3);
        AlarmReadsAll(slice);
      case 8 =>
        SliceU16(data, pos, e, 0);
        VoltageEndSlice(data, U16(data, pos), pos + 2, pos, e);
        VoltageReadsAll(slice);
      case 9 =>
        SliceU16(data, pos, e, 0);
        TemperatureEndSlice(data, U16(data, pos), pos + 2, pos, e);
        TemperatureReadsAll(slice);
      case _ =>
        assert slice[..|slice|] == slice;
    }
  }

  // ---- Extent of encoded fields ------------------------------------------------------------------------

  lemma VoltageEndStep(data: bytes, pos: nat, next: nat, s: VoltageSub, n: nat)
    requires At(data, pos, VoltageSubHead(s) + CellsBytes(s.cells)) && |s.cells| == s.cellCount
    requires next == pos + 7 + 3 * |s.cells|
    ensures VoltageEnd(data, n + 1, pos) == VoltageEnd(data, n, next)
  {
    VoltageSubReads(data, pos, s);
  }

  lemma {:induction false} VoltageExtent(data: bytes, pos: nat, ss: seq<VoltageSub>)
    requires At(data, pos, VoltageSubsBytes(ss)) && CellsFull(ss)
    ensures VoltageEnd(data, |ss|, pos) == pos + |VoltageSubsBytes(ss)|
    decreases |ss|
  {
    if ss != [] {
      var first := VoltageSubHead(ss[0]) + CellsBytes(ss[0].cells);
      AtSplit(data, pos, first, VoltageSubsBytes(ss[1..]));
      var next, rest := pos + |first|, ss[1..];
      VoltageExtent(data, next, rest);
      VoltageEndStep(data, pos, next, ss[0], |rest|);
    }
  }

  lemma TemperatureEndStep(data: bytes, pos: nat, next: nat, s: TemperatureSub, n: nat)
    requires At(data, pos, TemperatureSubHead(s) + s.probes) && |s.probes| == s.probeCount
    requires next == pos + 3 + |s.probes|
    ensures TemperatureEnd(data, n + 1, pos) == TemperatureEnd(data, n, next)
  {
    TemperatureSubReads(data, pos, s);
  }

  lemma {:induction false} TemperatureExtent(data: bytes, pos: nat, ss: seq<TemperatureSub>)
    requires At(data, pos, TemperatureSubsBytes(ss)) && ProbesFull(ss)
    ensures TemperatureEnd(data, |ss|, pos) == pos + |TemperatureSubsBytes(ss)|
    decreases |ss|
  {
    if ss != [] {
      var first := TemperatureSubHead(ss[0]) + ss[0].probes;
      AtSplit(data, pos, first, TemperatureSubsBytes(ss[1..]));
      var next, rest := pos + |first|, ss[1..];
      TemperatureExtent(data, next, rest);
      TemperatureEndStep(data, pos, next, ss[0], |rest|);
    }
  }

  lemma FuelCellExtent(data: bytes, pos: nat, f: FuelCell)
    requires At(data, pos, FuelCellBytes(f)) && |f.probeTemps| == f.probeCount
    ensures U16(data, pos + 6) == f.probeCount
  {
    AtSplit(data, pos, FuelCellHead(f) + f.probeTemps, FuelCellTail(f));
    AtSplit(data, pos, FuelCellHead(f), f.probeTemps);
    AtSplit(data, pos, Put16(f.cellVoltage) + Put16(f.cellCurrent) + Put16(f.consumption), Put16(f.probeCount));
    AtU16(data, pos + 6, f.probeCount);
  }

  /** Prefix stability: a well-formed field other than an alarm ends where its encoding ends, whatever follows. */
  lemma EncodedExtent(data: bytes, pos: nat, f: Field)
    requires WellFormed(f) && !f.AlarmField? && At(data, pos, Body(f))
    ensures FieldEnd(Id(f), data, pos) == pos + |Body(f)|
  {
    match f {
      case Motors(ms) =>
        AtHead(data, pos, CountByte(|ms|), MotorsBytes(ms));
      case FuelCellField(c) =>
        FuelCellExtent(data, pos, c);
      case Voltage(v) =>
        AtSplit(data, pos, Put16(v.subsysCount), VoltageSubsBytes(v.subs));
        AtU16(data, pos, v.subsysCount);
        VoltageExtent(data, pos + 2, v.subs);
      case Temperature(t) =>
        AtSplit(data, pos, Put16(t.subsysCount), TemperatureSubsBytes(t.subs));
        AtU16(data, pos, t.subsysCount);
        TemperatureExtent(data, pos + 2, t.subs);
      case _ =>
    }
  }
}
