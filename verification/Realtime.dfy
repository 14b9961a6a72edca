/** Realtime messages: time bytes followed by information fields, what their parse amounts to, and the lost alarms. */
module Realtime {
  import opened Bytes
  import opened BcdTime
  import opened Codec
  import opened FieldWire
  import opened FieldExtent

  datatype Message = Message(infoTime: Time, vehicle: Option<bytes>, motors: seq<Motor>, fuelCell: Option<FuelCell>,
                             engine: Option<bytes>, position: Option<bytes>, extreme: Option<bytes>,
                             alarm: Option<Alarm>, voltage: Option<VoltageInfo>)

  function Empty(t: Time): Message
  {
    Message(t, None, [], None, None, None, None, None, None)
  }

  /** The switch on the field identifier: the last value wins, motors accumulate, temperatures have no case. */
  function Store(msg: Message, f: Field): Message
  {
    match f
    case Vehicle(b) => msg.(vehicle := Some(b))
    case Motors(ms) => msg.(motors := msg.motors + ms)
    case FuelCellField(c) => msg.(fuelCell := Some(c))
    case Engine(b) => msg.(engine := Some(b))
    case Position(b) => msg.(position := Some(b))
    case Extreme(b) => msg.(extreme := Some(b))
    case AlarmField(a) => msg.(alarm := Some(a))
    case Voltage(v) => msg.(voltage := Some(v))
    case Temperature(_) => msg
    case Raw(_) => msg
  }

  function StoreDecoded(msg: Message, r: Decoded): Message
  {
    if r.Ok? then Store(msg, r.value) else msg
  }

  /** The field loop: the message filled so far and the position where the loop stops. */
  function ParseFields(data: bytes, pos: nat, msg: Message): (r: (Message, nat))
    ensures pos <= |data| ==> pos <= r.1 <= |data|
    decreases |data| - pos
  {
    if pos >= |data| || !HasDecoder(data[pos]) then (msg, pos)
    else
      var e := FieldEnd(data[pos], data, pos + 1);
      if e < 0 || e > |data| then (msg, pos + 1)
      else ParseFields(data, e, StoreDecoded(msg, DecodeField(data[pos], data[pos + 1..e])))
  }

  datatype ParseError = MessageTooShort

  function RealtimeItem(codec: TimeCodec, data: bytes): Result<(Message, nat), ParseError>
  {
    if |data| < 6 then Err(MessageTooShort)
    else Ok(ParseFields(data, 6, Empty(DecodeTime(codec, data[..6]))))
  }

  method DecodeRealtimeData(codec: TimeCodec, data: bytes) returns (r: Result<Message, ParseError>)
    ensures r == var i := RealtimeItem(codec, data); if i.Ok? then Ok(i.value.0) else Err(i.error)
  {
    if |data| < 6 {
      return Err(MessageTooShort);
    }
    var msg := Empty(DecodeTime(codec, data[..6]));
    var pos: nat := 6;
    while pos < |data|
      invariant 6 <= pos <= |data|
      invariant RealtimeItem(codec, data) == Ok(ParseFields(data, pos, msg))
      decreases |data| - pos
    {
      var fieldID := data[pos];
      if !HasDecoder(fieldID) {
        break;
      }
      var fieldEnd := FindFieldEnd(fieldID, data, pos + 1);
      if fieldEnd < 0 || fieldEnd > |data| {
        break;
      }
      var decoded := DecodeFieldData(fieldID, data[pos + 1..fieldEnd]);
      pos := fieldEnd;
      if decoded.Err? {
        continue;
      }
      msg := Store(msg, decoded.value);
    }
    return Ok(msg);
  }

  /** The second copy of the loop, which also reports how much it consumed. */
  method DecodeRealtimeItem(codec: TimeCodec, data: bytes) returns (r: Result<(Message, nat), ParseError>)
    ensures r == RealtimeItem(codec, data)
  {
    if |data| < 6 {
      return Err(MessageTooShort);
    }
    var msg := Empty(DecodeTime(codec, data[..6]));
    var pos: nat := 6;
    while pos < |data|
      invariant 6 <= pos <= |data|
      invariant RealtimeItem(codec, data) == Ok(ParseFields(data, pos, msg))
      decreases |data| - pos
    {
      var fieldID := data[pos];
      if !HasDecoder(fieldID) {
        break;
      }
      pos := pos + 1;
      var fieldEnd := FindFieldEnd(fieldID, data, pos);
      if fieldEnd < 0 || fieldEnd > |data| {
        return Ok((msg, pos));
      }
      var decoded := DecodeFieldData(fieldID, data[pos..fieldEnd]);
      pos := fieldEnd;
      if decoded.Err? {
        continue;
      }
      msg := Store(msg, decoded.value);
    }
    return Ok((msg, pos));
  }

  // ---- The parse as a fold -----------------------------------------------------------------------------

  function Fold(msg: Message, fs: seq<Field>): Message
    decreases |fs|
  {
    if fs == [] then msg else Fold(Store(msg, fs[0]), fs[1..])
  }

  /** Well-formed fields, none of them an alarm. */
  predicate Plain(fs: seq<Field>)
  {
    forall i :: 0 <= i < |fs| ==> WellFormed(fs[i]) && !fs[i].AlarmField?
  }

  function EncodeAll(fs: seq<Field>): bytes
    requires Plain(fs)
  {
    if fs == [] then [] else Encode(fs[0]) + EncodeAll(fs[1..])
  }

  lemma ParseStep(data: bytes, pos: nat, e: nat, id: byte, body: bytes, f: Field, msg: Message)
    requires pos < e <= |data| && data[pos] == id && data[pos + 1..e] == body
    requires HasDecoder(id) && FieldEnd(id, data, pos + 1) == e && DecodeField(id, body) == Ok(f)
    ensures ParseFields(data, pos, msg) == ParseFields(data, e, Store(msg, f))
  {
  }

  lemma OneFieldParsed(data: bytes, pos: nat, f: Field, msg: Message)
    requires WellFormed(f) && !f.AlarmField? && At(data, pos, Encode(f))
    ensures ParseFields(data, pos, msg) == ParseFields(data, pos + |Encode(f)|, Store(msg, f))
  {
    var id, body := Id(f), Body(f);
    AtHead(data, pos, id, body);
    EncodedExtent(data, pos + 1, f);
    FieldRoundTrip(f);
    ParseStep(data, pos, pos + 1 + |body|, id, body, f, msg);
  }

  lemma FirstFieldParsed(data: bytes, pos: nat, fs: seq<Field>, msg: Message) returns (next: nat, stored: Message)
    requires fs != [] && Plain(fs) && At(data, pos, EncodeAll(fs))
    ensures At(data, next, EncodeAll(fs[1..])) && next + |EncodeAll(fs[1..])| == pos + |EncodeAll(fs)|
    ensures Fold(msg, fs) == Fold(stored, fs[1..])
    ensures ParseFields(data, pos, msg) == ParseFields(data, next, stored)
  {
    var f := fs[0];
    var first := Encode(f);
    AtSplit(data, pos, first, EncodeAll(fs[1..]));
    OneFieldParsed(data, pos, f, msg);
    next, stored := pos + |first|, Store(msg, f);
  }

  /** Wherever well-formed fields lie in a buffer, the loop runs through them and applies each in order. */
  lemma {:induction false} FieldsParsed(data: bytes, pos: nat, fs: seq<Field>, msg: Message, end: nat, out: Message)
    requires Plain(fs) && At(data, pos, EncodeAll(fs))
    requires end == pos + |EncodeAll(fs)| && out == Fold(msg, fs)
    ensures ParseFields(data, pos, msg) == ParseFields(data, end, out)
    decreases |fs|
  {
    if fs != [] {
      var next, stored := FirstFieldParsed(data, pos, fs, msg);
      FieldsParsed(data, next, fs[1..], stored, end, out);
    } else {
      assert end == pos && out == msg;
    }
  }

  /** The last value `pick` finds among the fields, or `otherwise`. */
  function Last<T>(fs: seq<Field>, pick: Field -> Option<T>, otherwise: Option<T>): Option<T>
  {
    if fs == [] then otherwise
    else if pick(fs[|fs| - 1]).Some? then pick(fs[|fs| - 1])
    else Last(fs[..|fs| - 1], pick, otherwise)
  }

  /** The motor records of all motor fields, in order. */
  function AllMotors(fs: seq<Field>): seq<Motor>
  {
    if fs == [] then []
    else AllMotors(fs[..|fs| - 1]) + (if fs[|fs| - 1].Motors? then fs[|fs| - 1].motors else [])
  }

  function PickVehicle(f: Field): Option<bytes>
  {
    if f.Vehicle? then Some(f.vehicle) else None
  }

  function PickFuelCell(f: Field): Option<FuelCell>
  {
    if f.FuelCellField? then Some(f.fuelCell) else None
  }

  function PickEngine(f: Field): Option<bytes>
  {
    if f.Engine? then Some(f.engine) else None
  }

  function PickPosition(f: Field): Option<bytes>
  {
    if f.Position? then Some(f.position) else None
  }

  function PickExtreme(f: Field): Option<bytes>
  {
    if f.Extreme? then Some(f.extreme) else None
  }

  function PickAlarm(f: Field): Option<Alarm>
  {
    if f.AlarmField? then Some(f.alarm) else None
  }

  function PickVoltage(f: Field): Option<VoltageInfo>
  {
    if f.Voltage? then Some(f.voltage) else None
  }

  /** What the fold amounts to: the last value of each single-valued field, all motors in order, nothing of the rest. */
  function Summary(t: Time, fs: seq<Field>): Message
  {
    Message(t, Last(fs, PickVehicle, None), AllMotors(fs), Last(fs, PickFuelCell, None), Last(fs, PickEngine, None),
            Last(fs, PickPosition, None), Last(fs, PickExtreme, None), Last(fs, PickAlarm, None),
            Last(fs, PickVoltage, None))
  }

  lemma {:induction false} FoldIsSummary(t: Time, fs: seq<Field>)
    ensures Fold(Empty(t), fs) == Summary(t, fs)
    decreases |fs|
  {
    if fs != [] {
      var before, f := fs[..|fs| - 1], fs[|fs| - 1];
      assert fs == before + [f];
      FoldIsSummary(t, before);
      FoldConcat(Empty(t), before, [f]);
      assert [f][1..] == [];
      assert Fold(Summary(t, before), [f]) == Store(Summary(t, before), f);
      assert AllMotors(before) + [] == AllMotors(before);
    }
  }

  /** A realtime message of well-formed non-alarm fields decodes to the summary of its fields, consuming everything. */
  lemma RealtimeIsSummary(codec: TimeCodec, time: bytes, fs: seq<Field>)
    requires |time| == 6 && Plain(fs)
    ensures RealtimeItem(codec, time + EncodeAll(fs))
            == Ok((Summary(DecodeTime(codec, time), fs), 6 + |EncodeAll(fs)|))
  {
    FoldIsSummary(DecodeTime(codec, time), fs);
    var data := time + EncodeAll(fs);
    assert data[..6] == time && At(data, 6, EncodeAll(fs));
    var start := Empty(DecodeTime(codec, time));
    FieldsParsed(data, 6, fs, start, |data|, Fold(start, fs));
  }

  lemma {:induction false} FoldConcat(msg: Message, a: seq<Field>, b: seq<Field>)
    ensures Fold(msg, a + b) == Fold(Fold(msg, a), b)
    decreases |a|
  {
    if a == [] {
      assert a + b == b;
    } else {
      assert (a + b)[1..] == a[1..] + b;
      FoldConcat(Store(msg, a[0]), a[1..], b);
    }
  }

  /** Parsing the fields A then B equals applying B to the result of A. */
  lemma RealtimeComposes(codec: TimeCodec, time: bytes, a: seq<Field>, b: seq<Field>)
    requires |time| == 6 && Plain(a) && Plain(b)
    ensures var r := RealtimeItem(codec, time + EncodeAll(a));
            r.Ok? && RealtimeItem(codec, time + EncodeAll(a + b)).Ok?
            && RealtimeItem(codec, time + EncodeAll(a + b)).value.0 == Fold(r.value.0, b)
  {
    RealtimeIsSummary(codec, time, a);
    RealtimeIsSummary(codec, time, a + b);
    FoldIsSummary(DecodeTime(codec, time), a);
    FoldIsSummary(DecodeTime(codec, time), a + b);
    FoldConcat(Empty(DecodeTime(codec, time)), a, b);
  }

  // ---- Alarms ------------------------------------------------------------------------------------------

  /** The scan takes the alarm length from bytes 1..5 of the buffer: here, that reaches past the end. */
  predicate AlarmsUnreachable(data: bytes)
  {
    |data| >= 6 && U32(data, 1) > |data| - 12
  }

  lemma {:induction false} NoAlarmStored(data: bytes, pos: nat, msg: Message)
    requires AlarmsUnreachable(data) && pos >= 6 && msg.alarm == None
    ensures ParseFields(data, pos, msg).0.alarm == None
    decreases |data| - pos
  {
    if pos < |data| && HasDecoder(data[pos]) {
      var e := FieldEnd(data[pos], data, pos + 1);
      if 0 <= e <= |data| {
        NoAlarmStored(data, e, StoreDecoded(msg, DecodeField(data[pos], data[pos + 1..e])));
      }
    }
  }

  /**
   Any message with a month other than 0 that fits a frame loses all its alarms, whatever its content, because
   month, day, hour and minute are read as the alarm length.
   */
  lemma AlarmNeverDecoded(codec: TimeCodec, data: bytes)
    requires 6 <= |data| < 0x1_0000 && data[1] != 0
    ensures RealtimeItem(codec, data).Ok? && RealtimeItem(codec, data).value.0.alarm == None
  {
    assert U32(data, 1) >= 0x100_0000;
    NoAlarmStored(data, 6, Empty(DecodeTime(codec, data[..6])));
  }

  /** A slice that starts like the alarm `a` but ends where the scan puts its end. */
  lemma AlarmSliceReads(data: bytes, pos: nat, e: nat, a: Alarm)
    requires Full(AlarmField(a)) && At(data, pos, Body(AlarmField(a))) && pos + 5 <= e <= |data|
    ensures DecodeField(ALARM, data[pos..e]) == if pos + 5 + a.byteLen > e then Err(Truncated) else Ok(AlarmField(a))
  {
    AtSplit(data, pos, [a.maxLevel] + Put32(a.byteLen), a.alarmBytes);
    AtSplit(data, pos, [a.maxLevel], Put32(a.byteLen));
    AtIndex(data, pos, [a.maxLevel], 0);
    AtU32(data, pos + 1, a.byteLen);
    SliceU16(data, pos, e, 1);
    SliceU16(data, pos, e, 3);
    if pos + 5 + a.byteLen <= e {
      SubSlice(data, pos, e, 5, 5 + a.byteLen);
    }
  }

  lemma ParseAt(data: bytes, pos: nat, id: byte, e: nat, r: Decoded, msg: Message)
    requires pos < |data| && data[pos] == id && HasDecoder(id) && FieldEnd(id, data, pos + 1) == e
    requires e <= |data| ==> pos < e && DecodeField(id, data[pos + 1..e]) == r
    ensures ParseFields(data, pos, msg)
            == if e > |data| then (msg, pos + 1) else ParseFields(data, e, StoreDecoded(msg, r))
  {
  }

  /**
   What the loop does at an alarm: with the scanned length beyond the buffer it stops, with one shorter than the
   alarm it drops the alarm and goes on inside its bytes, otherwise it stores the alarm and goes on where the
   scanned length leads.
   */
  lemma AlarmStep(data: bytes, pos: nat, a: Alarm, msg: Message, n: nat, e: nat)
    requires pos >= 6 && Full(AlarmField(a)) && At(data, pos, Encode(AlarmField(a)))
    requires n == U32(data, 1) && e == pos + 6 + n
    ensures e > |data| ==> ParseFields(data, pos, msg) == (msg, pos + 1)
    ensures e <= |data| ==>
              ParseFields(data, pos, msg)
              == ParseFields(data, e, if n < a.byteLen then msg else Store(msg, AlarmField(a)))
  {
    AtHead(data, pos, ALARM, Body(AlarmField(a)));
    var r: Decoded := if n < a.byteLen then Err(Truncated) else Ok(AlarmField(a));
    if e <= |data| {
      AlarmSliceReads(data, pos + 1, e, a);
    }
    ParseAt(data, pos, ALARM, e, r, msg);
  }

  lemma TimeFirst(data: bytes, time: bytes, rest: bytes)
    requires |time| == 6 && data == time + rest
    ensures data[..6] == time && At(data, 6, rest) && U32(data, 1) == U32(time, 1)
  {
    assert data[6..] == rest;
  }

  /** A message that starts with plain fields: the loop reaches what follows them with the fields applied. */
  lemma PlainPrefix(codec: TimeCodec, data: bytes, time: bytes, fs: seq<Field>, tail: bytes)
    requires |time| == 6 && Plain(fs) && data == time + (EncodeAll(fs) + tail)
    ensures var pos := 6 + |EncodeAll(fs)|;
            && At(data, pos, tail) && |data| == pos + |tail| && U32(data, 1) == U32(time, 1)
            && RealtimeItem(codec, data) == Ok(ParseFields(data, pos, Fold(Empty(DecodeTime(codec, time)), fs)))
  {
    var pos := 6 + |EncodeAll(fs)|;
    var start := Empty(DecodeTime(codec, time));
    var msg := Fold(start, fs);
    TimeFirst(data, time, EncodeAll(fs) + tail);
    AtSplit(data, 6, EncodeAll(fs), tail);
    FieldsParsed(data, 6, fs, start, pos, msg);
  }

  lemma AlarmReached(codec: TimeCodec, data: bytes, time: bytes, fs: seq<Field>, a: Alarm, later: bytes)
    requires |time| == 6 && Plain(fs) && Full(AlarmField(a))
    requires data == time + (EncodeAll(fs) + (Encode(AlarmField(a)) + later))
    ensures var pos := 6 + |EncodeAll(fs)|;
            && At(data, pos, Encode(AlarmField(a))) && |data| == pos + 6 + a.byteLen + |later|
            && U32(data, 1) == U32(time, 1)
            && RealtimeItem(codec, data) == Ok(ParseFields(data, pos, Fold(Empty(DecodeTime(codec, time)), fs)))
  {
    PlainPrefix(codec, data, time, fs, Encode(AlarmField(a)) + later);
    AtSplit(data, 6 + |EncodeAll(fs)|, Encode(AlarmField(a)), later);
  }

  /**
   Everything from the first alarm on is lost, and one byte too many counted as consumed, exactly when bytes 1 to 4
   spell more than the bytes left after the alarm's head: always in a message with a month, if it fits a frame.
   */
  lemma AlarmEndsMessage(codec: TimeCodec, time: bytes, fs: seq<Field>, a: Alarm, later: bytes)
    requires |time| == 6 && Plain(fs) && Full(AlarmField(a))
    ensures RealtimeItem(codec, time + (EncodeAll(fs) + (Encode(AlarmField(a)) + later)))
            == Ok((Summary(DecodeTime(codec, time), fs), 6 + |EncodeAll(fs)| + 1))
            <==> U32(time, 1) > a.byteLen + |later|
  {
    var data, pos := time + (EncodeAll(fs) + (Encode(AlarmField(a)) + later)), 6 + |EncodeAll(fs)|;
    var n: nat := U32(time, 1);
    AlarmReached(codec, data, time, fs, a, later);
    FoldIsSummary(DecodeTime(codec, time), fs);
    AlarmStep(data, pos, a, Fold(Empty(DecodeTime(codec, time)), fs), n, pos + 6 + n);
  }

  /** An alarm, if there is one, announces at most `limit` bytes. */
  predicate AlarmWithin(msg: Message, limit: nat)
  {
    msg.alarm.Some? ==> msg.alarm.value.byteLen <= limit
  }

  /** An alarm that is stored fits the length the scan reads at byte 1 of the buffer. */
  lemma {:induction false} AlarmsFit(data: bytes, pos: nat, msg: Message)
    requires |data| >= 6 && AlarmWithin(msg, U32(data, 1))
    ensures AlarmWithin(ParseFields(data, pos, msg).0, U32(data, 1))
    decreases |data| - pos
  {
    if pos < |data| && HasDecoder(data[pos]) {
      var e := FieldEnd(data[pos], data, pos + 1);
      if 0 <= e <= |data| {
        AlarmsFit(data, e, StoreDecoded(msg, DecodeField(data[pos], data[pos + 1..e])));
      }
    }
  }

  lemma {:induction false} PlainHasNoAlarm(msg: Message, fs: seq<Field>)
    requires Plain(fs)
    ensures Fold(msg, fs).alarm == msg.alarm
    decreases |fs|
  {
    if fs != [] {
      PlainHasNoAlarm(Store(msg, fs[0]), fs[1..]);
    }
  }

  lemma AfterLastAlarm(data: bytes, e: nat, n: nat, a: Alarm, msg: Message, r: (Message, nat))
    requires |data| >= 6 && n == U32(data, 1) && e + a.byteLen == |data| + n && msg.alarm == None
    requires e > |data| ==> r.0 == msg
    requires e <= |data| ==> r == ParseFields(data, e, if n < a.byteLen then msg else Store(msg, AlarmField(a)))
    ensures r.0.alarm == Some(a) <==> n == a.byteLen
  {
    if n < a.byteLen {
      AlarmsFit(data, e, msg);
    }
  }

  lemma LastAlarm(data: bytes, pos: nat, a: Alarm, msg: Message)
    requires pos >= 6 && Full(AlarmField(a)) && At(data, pos, Encode(AlarmField(a))) && |data| == pos + 6 + a.byteLen
    requires msg.alarm == None
    ensures ParseFields(data, pos, msg).0.alarm == Some(a) <==> U32(data, 1) == a.byteLen
  {
    var n := U32(data, 1);
    var e := pos + 6 + n;
    AlarmStep(data, pos, a, msg, n, e);
    AfterLastAlarm(data, e, n, a, msg, ParseFields(data, pos, msg));
  }

  /** The alarm at the end of a message is decoded exactly when bytes 1 to 4, part of its time, spell its length. */
  lemma AlarmDecodedIff(codec: TimeCodec, time: bytes, fs: seq<Field>, a: Alarm)
    requires |time| == 6 && Plain(fs) && Full(AlarmField(a))
    ensures var r := RealtimeItem(codec, time + (EncodeAll(fs) + Encode(AlarmField(a))));
            r.Ok? && (r.value.0.alarm == Some(a) <==> U32(time, 1) == a.byteLen)
  {
    var data := time + (EncodeAll(fs) + Encode(AlarmField(a)));
    var start := Empty(DecodeTime(codec, time));
    assert Encode(AlarmField(a)) + [] == Encode(AlarmField(a));
    AlarmReached(codec, data, time, fs, a, []);
    PlainHasNoAlarm(start, fs);
    LastAlarm(data, 6 + |EncodeAll(fs)|, a, Fold(start, fs));
  }
}
