/** Parameter, platform-login and vehicle-login messages: counted lists of length-prefixed values. */
module Tlv {
  import opened Bytes
  import opened BcdTime

  type uint32 = x: int | 0 <= x < 0x1_0000_0000

  datatype TlvError = DataTooShort | LengthExceedsData

  /** `byte(n)`: a count or length above 255 is truncated. */
  function LowByte(n: nat): byte
  {
    n % 256
  }

  // ---- Parameter query ---------------------------------------------------------------------------------

  datatype ParamQuery = ParamQuery(time: Time, count: byte, ids: seq<uint32>)

  function IdsAt(data: bytes, n: nat, pos: nat): (ids: seq<uint32>)
    ensures |ids| <= n
    decreases n
  {
    if n == 0 || pos + 4 > |data| then [] else [U32(data, pos)] + IdsAt(data, n - 1, pos + 4)
  }

  function DecodeParamQuery(data: bytes): Result<ParamQuery, TlvError>
  {
    if |data| < 7 then Err(DataTooShort)
    else Ok(ParamQuery(ParseBCD(data[..6]), data[6], IdsAt(data, data[6], 7)))
  }

  method DecodeParamQueryData(data: bytes) returns (r: Result<ParamQuery, TlvError>)
    ensures r == DecodeParamQuery(data)
  {
    if |data| < 7 {
      return Err(DataTooShort);
    }
    var count: nat := data[6];
    var pos: nat := 7;
    var ids: seq<uint32> := [];
    var i := 0;
    while i < count && pos + 4 <= |data|
      invariant 0 <= i <= count
      invariant IdsAt(data, count, 7) == ids + IdsAt(data, count - i, pos)
    {
      SnocCons(ids, U32(data, pos), IdsAt(data, count - i - 1, pos + 4));
      ids := ids + [U32(data, pos)];
      pos := pos + 4;
      i := i + 1;
    }
    assert ids + [] == ids;
    return Ok(ParamQuery(ParseBCD(data[..6]), data[6], ids));
  }

  function IdsBytes(ids: seq<uint32>): (b: bytes)
    ensures |b| == 4 * |ids|
  {
    if ids == [] then [] else Put32(ids[0]) + IdsBytes(ids[1..])
  }

  function ParamQueryBytes(time: bytes, ids: seq<uint32>): bytes
  {
    time + [LowByte(|ids|)] + IdsBytes(ids)
  }

  /** The payload SendParamQuery builds. */
  method BuildParamQuery(time: Time, ids: seq<uint32>) returns (data: bytes)
    ensures data == ParamQueryBytes(EncodeBCD(time), ids)
  {
    data := EncodeBCD(time);
    data := data + [LowByte(|ids|)];
    assert ids[0..] == ids;
    for i := 0 to |ids|
      invariant data + IdsBytes(ids[i..]) == ParamQueryBytes(EncodeBCD(time), ids)
    {
      assert ids[i..][1..] == ids[i + 1..];
      Assoc(data, Put32(ids[i]), IdsBytes(ids[i + 1..]));
      data := data + Put32(ids[i]);
    }
    assert data + [] == data;
  }

  lemma {:induction false} IdsRead(data: bytes, pos: nat, ids: seq<uint32>)
    requires At(data, pos, IdsBytes(ids))
    ensures IdsAt(data, |ids|, pos) == ids
    decreases |ids|
  {
    if ids != [] {
      AtSplit(data, pos, Put32(ids[0]), IdsBytes(ids[1..]));
      AtU32(data, pos, ids[0]);
      IdsRead(data, pos + 4, ids[1..]);
      assert ids == [ids[0]] + ids[1..];
    }
  }

  /** The head of a counted message: time and count. */
  lemma CountedHead(data: bytes, time: bytes, count: byte, tail: bytes)
    requires |time| == 6 && data == time + [count] + tail
    ensures |data| >= 7 && data[..6] == time && data[6] == count && At(data, 7, tail)
  {
    AtWhole(data);
    AtSplit(data, 0, time + [count], tail);
  }

  /** A parameter query comes back with the same identifiers exactly when there are at most 255 of them. */
  lemma ParamQueryRoundTripIff(time: bytes, ids: seq<uint32>)
    requires |time| == 6
    ensures DecodeParamQuery(ParamQueryBytes(time, ids)) == Ok(ParamQuery(ParseBCD(time), LowByte(|ids|), ids))
            <==> |ids| <= 255
  {
    var data := ParamQueryBytes(time, ids);
    CountedHead(data, time, LowByte(|ids|), IdsBytes(ids));
    var read := IdsAt(data, data[6], 7);
    assert |read| <= 255;
    if |ids| <= 255 {
      IdsRead(data, 7, ids);
    }
  }

  // ---- Parameter setting -------------------------------------------------------------------------------

  datatype Param = Param(id: uint32, value: bytes)

  datatype ParamSetting = ParamSetting(time: Time, count: byte, params: seq<Param>)

  function ParamsAt(data: bytes, n: nat, pos: nat): (ps: seq<Param>)
    ensures |ps| <= n && forall i :: 0 <= i < |ps| ==> |ps[i].value| <= 255
    decreases n
  {
    if n == 0 || pos + 5 > |data| then []
    else
      var end: nat := pos + 5 + data[pos + 4];
      if end > |data| then [] else [Param(U32(data, pos), data[pos + 5..end])] + ParamsAt(data, n - 1, end)
  }

  function DecodeParamSetting(data: bytes): Result<ParamSetting, TlvError>
  {
    if |data| < 7 then Err(DataTooShort)
    else Ok(ParamSetting(ParseBCD(data[..6]), data[6], ParamsAt(data, data[6], 7)))
  }

  method DecodeParamSettingData(data: bytes) returns (r: Result<ParamSetting, TlvError>)
    ensures r == DecodeParamSetting(data)
  {
    if |data| < 7 {
      return Err(DataTooShort);
    }
    var count: nat := data[6];
    var params := ReadParams(data, count, 7);
    return Ok(ParamSetting(ParseBCD(data[..6]), data[6], params));
  }

  method ReadParams(data: bytes, count: nat, start: nat) returns (params: seq<Param>)
    ensures params == ParamsAt(data, count, start)
  {
    var pos: nat := start;
    params := [];
    var i := 0;
    while i < count && pos + 5 <= |data|
      invariant 0 <= i <= count
      invariant ParamsAt(data, count, start) == params + ParamsAt(data, count - i, pos)
    {
      var id := U32(data, pos);
      var valLen: nat := data[pos + 4];
      if pos + 5 + valLen > |data| {
        break;
      }
      var param := Param(id, data[pos + 5..pos + 5 + valLen]);
      ghost var later := ParamsAt(data, count - i - 1, pos + 5 + valLen);
      assert ParamsAt(data, count - i, pos) == [param] + later;
      SnocCons(params, param, later);
      params := params + [param];
      pos := pos + 5 + valLen;
      i := i + 1;
    }
    assert params + [] == params;
  }

  function ParamBytes(p: Param): (b: bytes)
    ensures |b| == 5 + |p.value|
  {
    Put32(p.id) + [LowByte(|p.value|)] + p.value
  }

  function ParamsBytes(ps: seq<Param>): bytes
  {
    if ps == [] then [] else ParamBytes(ps[0]) + ParamsBytes(ps[1..])
  }

  function ParamSettingBytes(time: bytes, ps: seq<Param>): bytes
  {
    time + [LowByte(|ps|)] + ParamsBytes(ps)
  }

  /** The payload SendParamSetting builds. */
  method BuildParamSetting(time: Time, ps: seq<Param>) returns (data: bytes)
    ensures data == ParamSettingBytes(EncodeBCD(time), ps)
  {
    data := EncodeBCD(time);
    data := data + [LowByte(|ps|)];
    assert ps[0..] == ps;
    for i := 0 to |ps|
      invariant data + ParamsBytes(ps[i..]) == ParamSettingBytes(EncodeBCD(time), ps)
    {
      var p := ps[i];
      assert ps[i..][1..] == ps[i + 1..];
      Assoc(data, ParamBytes(p), ParamsBytes(ps[i + 1..]));
      Assoc(data, Put32(p.id) + [LowByte(|p.value|)], p.value);
      Assoc(data, Put32(p.id), [LowByte(|p.value|)]);
      data := data + Put32(p.id);
      data := data + [LowByte(|p.value|)];
      data := data + p.value;
    }
    assert data + [] == data;
  }

  lemma ParamReads(data: bytes, pos: nat, p: Param)
    requires At(data, pos, ParamBytes(p)) && |p.value| <= 255
    ensures U32(data, pos) == p.id && data[pos + 4] == |p.value|
    ensures data[pos + 5..pos + 5 + |p.value|] == p.value
  {
    var length := LowByte(|p.value|);
    Assoc(Put32(p.id), [length], p.value);
    AtSplit(data, pos, Put32(p.id), [length] + p.value);
    AtU32(data, pos, p.id);
    AtHead(data, pos + 4, length, p.value);
  }

  predicate ValuesFit(ps: seq<Param>)
  {
    forall i :: 0 <= i < |ps| ==> |ps[i].value| <= 255
  }

  lemma {:induction false} ParamsRead(data: bytes, pos: nat, ps: seq<Param>)
    requires At(data, pos, ParamsBytes(ps)) && ValuesFit(ps)
    ensures ParamsAt(data, |ps|, pos) == ps
    decreases |ps|
  {
    if ps != [] {
      var p, rest := ps[0], ps[1..];
      AtSplit(data, pos, ParamBytes(p), ParamsBytes(rest));
      ParamReads(data, pos, p);
      ParamsRead(data, pos + 5 + |p.value|, rest);
      assert ps == [p] + rest;
    }
  }

  /** Parameter settings come back unchanged exactly when there are at most 255, with values of at most 255 bytes. */
  lemma ParamSettingRoundTripIff(time: bytes, ps: seq<Param>)
    requires |time| == 6
    ensures DecodeParamSetting(ParamSettingBytes(time, ps))
            == Ok(ParamSetting(ParseBCD(time), LowByte(|ps|), ps))
            <==> |ps| <= 255 && ValuesFit(ps)
  {
    var data := ParamSettingBytes(time, ps);
    CountedHead(data, time, LowByte(|ps|), ParamsBytes(ps));
    if |ps| <= 255 && ValuesFit(ps) {
      ParamsRead(data, 7, ps);
    }
  }

  // ---- Platform login ----------------------------------------------------------------------------------

  datatype PlatformLogin = PlatformLogin(time: Time, sequence: nat, username: bytes, password: bytes)

  function EncodeParamString(s: bytes): bytes
  {
    [LowByte(|s|)] + s
  }

  /** The string at the front of `data` and the bytes it takes; the empty string and 0 when it does not fit. */
  function DecodeParamString(data: bytes): (r: (bytes, nat))
    ensures |r.0| <= 255 && r.1 <= |data|
  {
    if |data| < 1 || 1 + (data[0] as int) > |data| then ([], 0)
    else (data[1..1 + (data[0] as int)], 1 + (data[0] as int))
  }

  function DecodePlatformLogin(data: bytes): Result<PlatformLogin, TlvError>
  {
    if |data| < 8 then Err(DataTooShort)
    else
      var user := DecodeParamString(data[8..]);
      var pass := DecodeParamString(data[8 + user.1..]);
      Ok(PlatformLogin(ParseBCD(data[..6]), U16(data, 6), user.0, pass.0))
  }

  /** The payload SendPlatLogin builds: time, a zero sequence number, user name and password. */
  function PlatformLoginBytes(time: bytes, username: bytes, password: bytes): bytes
  {
    time + [0, 0] + EncodeParamString(username) + EncodeParamString(password)
  }

  lemma ParamStringReads(s: bytes, later: bytes)
    requires |s| <= 255
    ensures DecodeParamString(EncodeParamString(s) + later) == (s, 1 + |s|)
  {
    var data := EncodeParamString(s) + later;
    AtWhole(data);
    AtSplit(data, 0, EncodeParamString(s), later);
    AtHead(data, 0, LowByte(|s|), s);
  }

  /** A platform login comes back unchanged exactly when both strings have at most 255 bytes. */
  lemma PlatformLoginRoundTripIff(time: bytes, username: bytes, password: bytes)
    requires |time| == 6
    ensures DecodePlatformLogin(PlatformLoginBytes(time, username, password))
            == Ok(PlatformLogin(ParseBCD(time), 0, username, password))
            <==> |username| <= 255 && |password| <= 255
  {
    if |username| <= 255 && |password| <= 255 {
      var user, pass := EncodeParamString(username), EncodeParamString(password);
      var data := PlatformLoginBytes(time, username, password);
      assert data[..6] == time && data[6] == data[7] == 0;
      assert data[8..] == user + pass;
      ParamStringReads(username, pass);
      assert data[8 + |user|..] == pass + [];
      ParamStringReads(password, []);
    }
  }

  // ---- Vehicle login and logout ------------------------------------------------------------------------

  datatype ConfigField = ConfigField(id: byte, length: byte, value: bytes)

  datatype VehicleLogin = VehicleLogin(time: Time, sequence: nat, iccid: bytes, configCount: byte,
                                       configs: seq<ConfigField>)

  function ConfigsAt(data: bytes, n: nat, pos: nat): seq<ConfigField>
    decreases n
  {
    if n == 0 || pos + 2 > |data| then []
    else
      var end: nat := pos + 2 + data[pos + 1];
      if end > |data| then []
      else [ConfigField(data[pos], data[pos + 1], data[pos + 2..end])] + ConfigsAt(data, n - 1, end)
  }

  /** Time, sequence, ICCID, and configuration fields if any bytes are left for them. */
  function DecodeLogin(codec: TimeCodec, data: bytes): Result<VehicleLogin, TlvError>
  {
    if |data| < 9 then Err(DataTooShort)
    else
      var end: nat := 9 + (data[8] as int);
      if end > |data| then Err(LengthExceedsData)
      else if end == |data| then Ok(VehicleLogin(DecodeTime(codec, data[..6]), U16(data, 6), data[9..end], 0, []))
      else Ok(VehicleLogin(DecodeTime(codec, data[..6]), U16(data, 6), data[9..end], data[end],
                           ConfigsAt(data, data[end], end + 1)))
  }

  method DecodeLoginData(codec: TimeCodec, data: bytes) returns (r: Result<VehicleLogin, TlvError>)
    ensures r == DecodeLogin(codec, data)
  {
    if |data| < 9 {
      return Err(DataTooShort);
    }
    var pos := 0;
    var loginTime := DecodeTime(codec, data[pos..pos + 6]);
    pos := pos + 6;
    var sequence := U16(data, pos);
    pos := pos + 2;
    var iccidLen: nat := data[pos];
    pos := pos + 1;
    if pos + iccidLen > |data| {
      return Err(LengthExceedsData);
    }
    var iccid := data[pos..pos + iccidLen];
    pos := pos + iccidLen;
    if pos == |data| {
      return Ok(VehicleLogin(loginTime, sequence, iccid, 0, []));
    }
    var configs := ReadConfigs(data, data[pos], pos + 1);
    return Ok(VehicleLogin(loginTime, sequence, iccid, data[pos], configs));
  }

  method ReadConfigs(data: bytes, count: nat, start: nat) returns (configs: seq<ConfigField>)
    ensures configs == ConfigsAt(data, count, start)
  {
    ghost var whole := ConfigsAt(data, count, start);
    var pos: nat := start;
    configs := [];
    var i := 0;
    while i < count && pos + 2 <= |data|
      invariant 0 <= i <= count
      invariant whole == configs + ConfigsAt(data, count - i, pos)
    {
      var length: nat := data[pos + 1];
      if pos + 2 + length > |data| {
        break;
      }
      var field := ConfigField(data[pos], data[pos + 1], data[pos + 2..pos + 2 + length]);
      ghost var later := ConfigsAt(data, count - i - 1, pos + 2 + length);
      assert ConfigsAt(data, count - i, pos) == [field] + later;
      SnocCons(configs, field, later);
      configs := configs + [field];
      pos := pos + 2 + length;
      i := i + 1;
    }
    assert configs + [] == configs;
  }

  // The wire form of a vehicle login, as the reference the decoder is held against.

  function ConfigBytes(f: ConfigField): (b: bytes)
    ensures |b| == 2 + |f.value|
  {
    [f.id, f.length] + f.value
  }

  function ConfigsBytes(fs: seq<ConfigField>): bytes
  {
    if fs == [] then [] else ConfigBytes(fs[0]) + ConfigsBytes(fs[1..])
  }

  predicate LengthsAgree(fs: seq<ConfigField>)
  {
    forall i :: 0 <= i < |fs| ==> |fs[i].value| == fs[i].length
  }

  lemma ConfigReads(data: bytes, pos: nat, f: ConfigField)
    requires At(data, pos, ConfigBytes(f)) && |f.value| == f.length
    ensures data[pos] == f.id && data[pos + 1] == f.length && data[pos + 2..pos + 2 + |f.value|] == f.value
  {
    AtSplit(data, pos, [f.id, f.length], f.value);
    AtIndex(data, pos, [f.id, f.length], 0);
    AtIndex(data, pos, [f.id, f.length], 1);
  }

  lemma {:induction false} ConfigsRead(data: bytes, pos: nat, fs: seq<ConfigField>)
    requires At(data, pos, ConfigsBytes(fs)) && LengthsAgree(fs)
    ensures ConfigsAt(data, |fs|, pos) == fs
    decreases |fs|
  {
    if fs != [] {
      var f, rest := fs[0], fs[1..];
      AtSplit(data, pos, ConfigBytes(f), ConfigsBytes(rest));
      ConfigReads(data, pos, f);
      ConfigsRead(data, pos + 2 + |f.value|, rest);
      assert fs == [f] + rest;
    }
  }

  function LoginBytes(time: bytes, sequence: nat, iccid: bytes, configs: seq<ConfigField>): bytes
  {
    time + (Put16(sequence) + ([LowByte(|iccid|)] + (iccid + ([LowByte(|configs|)] + ConfigsBytes(configs)))))
  }

  /** A vehicle login laid out by the standard is read back field by field. */
  lemma LoginRoundTrip(codec: TimeCodec, time: bytes, sequence: nat, iccid: bytes, configs: seq<ConfigField>)
    requires |time| == 6 && sequence < 0x1_0000 && |iccid| <= 255 && |configs| <= 255 && LengthsAgree(configs)
    ensures DecodeLogin(codec, LoginBytes(time, sequence, iccid, configs))
            == Ok(VehicleLogin(DecodeTime(codec, time), sequence, iccid, |configs|, configs))
  {
    var data := LoginBytes(time, sequence, iccid, configs);
    LoginLayout(data, time, sequence, iccid, LowByte(|configs|), ConfigsBytes(configs));
    ConfigsRead(data, 10 + |iccid|, configs);
  }

  lemma LoginLayout(data: bytes, time: bytes, sequence: nat, iccid: bytes, count: byte, tail: bytes)
    requires |time| == 6 && sequence < 0x1_0000 && |iccid| <= 255
    requires data == time + (Put16(sequence) + ([LowByte(|iccid|)] + (iccid + ([count] + tail))))
    ensures |data| >= 10 + |iccid| && data[..6] == time && U16(data, 6) == sequence && data[8] == |iccid|
    ensures data[9..9 + |iccid|] == iccid && data[9 + |iccid|] == count && At(data, 10 + |iccid|, tail)
  {
    var r4 := [count] + tail;
    var r3 := iccid + r4;
    var r2 := [LowByte(|iccid|)] + r3;
    var r1 := Put16(sequence) + r2;
    AtWhole(data);
    AtSplit(data, 0, time, r1);
    AtSplit(data, 6, Put16(sequence), r2);
    AtU16(data, 6, sequence);
    AtHead(data, 8, LowByte(|iccid|), r3);
    AtSplit(data, 9, iccid, r4);
    AtHead(data, 9 + |iccid|, count, tail);
  }

  /** DecodeLogoutData fails only on short data. */
  predicate LogoutDecodes(data: bytes)
  {
    |data| >= 8
  }
}
