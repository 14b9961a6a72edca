/** What a connection writes over a whole run, explained by the packets and calls that came before. */
module SessionLaws {
  import opened Bytes
  import opened BcdTime
  import opened Frame
  import opened Scanning
  import StreamLaws
  import opened Crypto
  import opened Tlv
  import opened Session
  import opened Connections

  // ---- Runs --------------------------------------------------------------------------------------------

  datatype Event = PacketIn(pkt: Packet, env: Env) | SendCall(command: byte, data: bytes) | CloseCall

  function Step(c: BlockCipher, s: Conn, e: Event): (s': Conn)
    requires IsCipher(c) && KeyFits(s)
    ensures KeyFits(s')
  {
    match e
    case PacketIn(pkt, env) => Handled(c, s, pkt, env)
    case SendCall(command, data) => Sent(c, s, command, data)
    case CloseCall => CloseConn(s)
  }

  function Run(c: BlockCipher, es: seq<Event>): (s: Conn)
    requires IsCipher(c)
    ensures KeyFits(s)
  {
    if es == [] then FRESH else Step(c, Run(c, es[..|es| - 1]), es[|es| - 1])
  }

  /** Packets come from the decoder, so their VINs have 17 bytes. */
  predicate RealVins(es: seq<Event>)
  {
    forall i :: 0 <= i < |es| && es[i].PacketIn? ==> |es[i].pkt.vin| == VIN_LENGTH
  }

  // ---- What an event is, given the key in force before it ----------------------------------------------

  /** A packet with this command whose payload can be decrypted. */
  predicate Arrives(c: BlockCipher, key: Option<bytes>, e: Event, command: byte)
    requires IsCipher(c)
  {
    e.PacketIn? && e.pkt.command == command && Payload(c, key, e.pkt).Some?
  }

  predicate IsLogin(c: BlockCipher, key: Option<bytes>, e: Event)
    requires IsCipher(c)
  {
    Arrives(c, key, e, CMD_LOGIN) && e.env.admitted && DecodeLogin(BCD, Payload(c, key, e.pkt).value).Ok?
  }

  predicate GrantsToken(c: BlockCipher, key: Option<bytes>, e: Event)
    requires IsCipher(c)
  {
    IsLogin(c, key, e) && e.env.reply.Respond? && e.env.reply.resp.token != []
  }

  predicate IsLogout(c: BlockCipher, key: Option<bytes>, e: Event)
    requires IsCipher(c)
  {
    Arrives(c, key, e, CMD_LOGOUT) && LogoutDecodes(Payload(c, key, e.pkt).value)
  }

  /** A call of Close, or a login that is turned away. */
  predicate IsClose(c: BlockCipher, key: Option<bytes>, e: Event)
    requires IsCipher(c)
  {
    e.CloseCall? || (Arrives(c, key, e, CMD_LOGIN) && !e.env.admitted)
  }

  /** What an event does to the key in force. */
  datatype KeyEffect = Grant(key: bytes) | Withdraw | Keep

  function EffectOf(c: BlockCipher, key: Option<bytes>, e: Event): KeyEffect
    requires IsCipher(c)
  {
    if GrantsToken(c, key, e) then Grant(DerivedKey(e.env.reply.resp.token))
    else if IsLogout(c, key, e) then Withdraw
    else Keep
  }

  function After(fx: seq<KeyEffect>): Option<bytes>
  {
    if fx == [] then None
    else
      match fx[|fx| - 1]
      case Grant(key) => Some(key)
      case Withdraw => None
      case Keep => After(fx[..|fx| - 1])
  }

  function Effects(c: BlockCipher, es: seq<Event>): (fx: seq<KeyEffect>)
    requires IsCipher(c)
    ensures |fx| == |es|
  {
    if es == [] then []
    else
      var fx := Effects(c, es[..|es| - 1]);
      fx + [EffectOf(c, After(fx), es[|es| - 1])]
  }

  /** The key left in force by the events so far. */
  function KeyInForce(c: BlockCipher, es: seq<Event>): Option<bytes>
    requires IsCipher(c)
  {
    After(Effects(c, es))
  }

  /** The VIN of the latest login, if there was one. */
  function LatestVin(c: BlockCipher, es: seq<Event>): Option<bytes>
    requires IsCipher(c)
  {
    if es == [] then None
    else
      var n := |es| - 1;
      if IsLogin(c, KeyInForce(c, es[..n]), es[n]) then Some(es[n].pkt.vin) else LatestVin(c, es[..n])
  }

  predicate EverClosed(c: BlockCipher, es: seq<Event>)
    requires IsCipher(c)
  {
    es != [] && (EverClosed(c, es[..|es| - 1]) || IsClose(c, KeyInForce(c, es[..|es| - 1]), es[|es| - 1]))
  }

  /** Event `i` granted `key`, and no later event granted another or was a logout. */
  predicate LastGrant(fx: seq<KeyEffect>, i: nat, key: bytes)
  {
    i < |fx| && fx[i] == Grant(key) && forall j :: i < j < |fx| ==> fx[j] == Keep
  }

  lemma {:induction false} AfterWitness(fx: seq<KeyEffect>, key: bytes) returns (i: nat)
    requires After(fx) == Some(key)
    ensures LastGrant(fx, i, key)
  {
    var n := |fx| - 1;
    i := n;
    if fx[n] == Keep {
      i := AfterWitness(fx[..n], key);
    }
  }

  lemma {:induction false} GrantIsAfter(fx: seq<KeyEffect>, i: nat, key: bytes)
    requires LastGrant(fx, i, key)
    ensures After(fx) == Some(key)
  {
    var n := |fx| - 1;
    if i < n {
      assert fx[n] == Keep && LastGrant(fx[..n], i, key);
      GrantIsAfter(fx[..n], i, key);
    }
  }

  ghost predicate Granted(fx: seq<KeyEffect>, key: bytes)
  {
    exists i: nat :: LastGrant(fx, i, key)
  }

  lemma AfterIff(fx: seq<KeyEffect>, key: bytes)
    ensures After(fx) == Some(key) <==> Granted(fx, key)
  {
    if After(fx) == Some(key) {
      var i := AfterWitness(fx, key);
    }
    if Granted(fx, key) {
      var i: nat :| LastGrant(fx, i, key);
      GrantIsAfter(fx, i, key);
    }
  }

  /** A key is in force exactly when some login granted its token and nothing since granted another or logged out. */
  lemma KeyInForceIff(c: BlockCipher, es: seq<Event>, key: bytes)
    requires IsCipher(c)
    ensures KeyInForce(c, es) == Some(key) <==> Granted(Effects(c, es), key)
  {
    AfterIff(Effects(c, es), key);
  }

  // ---- The state is the history ------------------------------------------------------------------------

  lemma HistoryOneMore(c: BlockCipher, es: seq<Event>, e: Event)
    requires IsCipher(c)
    ensures KeyInForce(c, es + [e]) == match EffectOf(c, KeyInForce(c, es), e)
                                       case Grant(key) => Some(key)
                                       case Withdraw => None
                                       case Keep => KeyInForce(c, es)
    ensures LatestVin(c, es + [e]) == if IsLogin(c, KeyInForce(c, es), e) then Some(e.pkt.vin) else LatestVin(c, es)
    ensures EverClosed(c, es + [e]) == (EverClosed(c, es) || IsClose(c, KeyInForce(c, es), e))
    ensures Run(c, es + [e]) == Step(c, Run(c, es), e)
  {
    assert (es + [e])[..|es|] == es;
    var fx := Effects(c, es);
    assert (fx + [EffectOf(c, After(fx), e)])[..|fx|] == fx;
  }

  /** The connection's fields say what the events so far say. */
  ghost predicate Reflects(c: BlockCipher, es: seq<Event>, s: Conn)
    requires IsCipher(c)
  {
    && s.key == KeyInForce(c, es)
    && s.vin == (if LatestVin(c, es).Some? then LatestVin(c, es).value else [])
    && (LatestVin(c, es).Some? ==> |s.vin| == VIN_LENGTH)
    && s.socketOpen == !EverClosed(c, es)
    && (s.state == Closed ==> !s.socketOpen)
  }

  lemma StepEffect(c: BlockCipher, s: Conn, e: Event)
    requires IsCipher(c) && KeyFits(s)
    ensures Step(c, s, e).key == match EffectOf(c, s.key, e)
                                 case Grant(key) => Some(key)
                                 case Withdraw => None
                                 case Keep => s.key
    ensures Step(c, s, e).vin == if IsLogin(c, s.key, e) then e.pkt.vin else s.vin
  {
  }

  lemma HandledCloses(c: BlockCipher, s: Conn, pkt: Packet, env: Env)
    requires IsCipher(c) && KeyFits(s) && (s.state == Closed ==> !s.socketOpen)
    ensures var t := Handled(c, s, pkt, env);
            && t.socketOpen == (s.socketOpen
                                && !(pkt.command == CMD_LOGIN && Payload(c, s.key, pkt).Some? && !env.admitted))
            && (t.state == Closed ==> !t.socketOpen)
  {
  }

  lemma StepCloses(c: BlockCipher, s: Conn, e: Event)
    requires IsCipher(c) && KeyFits(s) && (s.state == Closed ==> !s.socketOpen)
    ensures Step(c, s, e).socketOpen == (s.socketOpen && !IsClose(c, s.key, e))
    ensures Step(c, s, e).state == Closed ==> !Step(c, s, e).socketOpen
  {
    match e {
      case PacketIn(pkt, env) => HandledCloses(c, s, pkt, env);
      case SendCall(_, _) =>
      case CloseCall =>
    }
  }

  lemma StepReflects(c: BlockCipher, es: seq<Event>, e: Event, s: Conn)
    requires IsCipher(c) && KeyFits(s) && Reflects(c, es, s)
    requires e.PacketIn? ==> |e.pkt.vin| == VIN_LENGTH
    ensures Reflects(c, es + [e], Step(c, s, e))
  {
    HistoryOneMore(c, es, e);
    StepEffect(c, s, e);
    StepCloses(c, s, e);
  }

  /** In every run, VIN, key and socket of the connection are those the history dictates. */
  lemma {:induction false} RunReflects(c: BlockCipher, es: seq<Event>)
    requires IsCipher(c) && RealVins(es)
    ensures Reflects(c, es, Run(c, es))
  {
    if es != [] {
      var before, e := es[..|es| - 1], es[|es| - 1];
      assert es == before + [e];
      RunReflects(c, before);
      StepReflects(c, before, e, Run(c, before));
    }
  }

  // ---- What is written ---------------------------------------------------------------------------------

  /** Event `e` after `es` wrote one frame: socket open, key in force before it, VIN of the latest login up to it. */
  ghost predicate WritesOne(c: BlockCipher, es: seq<Event>, e: Event, command: byte, data: bytes)
    requires IsCipher(c)
  {
    var key, vin := KeyInForce(c, es), LatestVin(c, es + [e]);
    && !EverClosed(c, es) && vin.Some?
    && (key.Some? ==> |key.value| == BLOCK)
    && Run(c, es + [e]).wire == Run(c, es).wire + [SendFrame(c, key, vin.value, command, data)]
  }

  lemma StepWrites(c: BlockCipher, s: Conn, e: Event) returns (command: byte, data: bytes)
    requires IsCipher(c) && KeyFits(s) && (s.state == Closed ==> !s.socketOpen)
    ensures var t := Step(c, s, e);
            || t.wire == s.wire
            || (s.socketOpen && |t.vin| == VIN_LENGTH && t.wire == s.wire + [SendFrame(c, s.key, t.vin, command, data)])
  {
    command, data := 0, [];
    match e {
      case SendCall(cmd, d) =>
        command, data := cmd, d;
      case CloseCall =>
      case PacketIn(pkt, env) =>
        command := if pkt.command == CMD_PARAM_QUERY then CMD_PARAM_QUERY_RESPONSE else pkt.command;
        if IsLogin(c, s.key, e) && env.reply.Respond? {
          var login := DecodeLogin(BCD, Payload(c, s.key, pkt).value).value;
          data := LoginResponseBytes(env.reply.resp, login.time);
        } else if pkt.command == CMD_HEARTBEAT || pkt.command == CMD_TIME_CALIBRATION {
          data := EncodeBCD(env.now);
        } else if pkt.command == CMD_PARAM_QUERY && env.answer.Some? {
          data := env.answer.value;
        }
    }
  }

  lemma EventWrites(c: BlockCipher, es: seq<Event>, e: Event) returns (command: byte, data: bytes)
    requires IsCipher(c) && RealVins(es) && (e.PacketIn? ==> |e.pkt.vin| == VIN_LENGTH)
    ensures Run(c, es + [e]).wire == Run(c, es).wire || WritesOne(c, es, e, command, data)
  {
    RunReflects(c, es);
    var s := Run(c, es);
    StepReflects(c, es, e, s);
    HistoryOneMore(c, es, e);
    command, data := StepWrites(c, s, e);
  }

  /**
   Every frame ever written was written by one event, while the connection had never been closed and after a login,
   with the VIN of the latest login; its payload was encrypted, under the key in force before that event, exactly
   when there was such a key and the payload was not empty.
   */
  lemma {:induction false} FrameHistory(c: BlockCipher, es: seq<Event>, n: nat)
    returns (j: nat, command: byte, data: bytes)
    requires IsCipher(c) && RealVins(es) && n < |Run(c, es).wire|
    ensures j < |es| && WritesOne(c, es[..j], es[j], command, data)
    ensures n == |Run(c, es[..j]).wire| && Run(c, es).wire[n] == Run(c, es[..j] + [es[j]]).wire[n]
    decreases |es|
  {
    var m := |es| - 1;
    var before, e := es[..m], es[m];
    assert es == before + [e];
    command, data := EventWrites(c, before, e);
    if n < |Run(c, before).wire| {
      j, command, data := FrameHistory(c, before, n);
      assert before[..j] == es[..j];
    } else {
      j := m;
    }
  }

  /** A call of Send writes its frame exactly when the connection was never closed and some login preceded it. */
  lemma SendWritesIff(c: BlockCipher, es: seq<Event>, command: byte, data: bytes)
    requires IsCipher(c) && RealVins(es)
    ensures var wire, key := Run(c, es).wire, KeyInForce(c, es);
            && (key.Some? ==> |key.value| == BLOCK)
            && Run(c, es + [SendCall(command, data)]).wire
               == if !EverClosed(c, es) && LatestVin(c, es).Some?
                  then wire + [SendFrame(c, key, LatestVin(c, es).value, command, data)] else wire
  {
    RunReflects(c, es);
    HistoryOneMore(c, es, SendCall(command, data));
  }

  // ---- End to end --------------------------------------------------------------------------------------

  /** The longest payload whose padded ciphertext still fits the 16-bit length field. */
  const LONGEST_ENCRYPTED: nat := 65519

  /** The longest payload a frame takes, with a key in force or without. */
  function LongestPayload(key: Option<bytes>): nat
  {
    if key.Some? then LONGEST_ENCRYPTED else 0xFFFF
  }

  /** An encrypted frame of a payload that fits is received as sent. */
  lemma EncryptedFrameReceived(includeStart: bool, c: BlockCipher, key: bytes, vin: bytes, command: byte, data: bytes)
    requires IsCipher(c) && |key| == BLOCK && |vin| == VIN_LENGTH && 1 <= |data| <= LONGEST_ENCRYPTED
    ensures var e := EncryptAES128(c, data, key).value;
            Scan(includeStart, SendFrame(c, Some(key), vin, command, data))
            == Found(Packet(command, RESP_SUCCESS, vin, ENC_AES128, e, |e|), [])
  {
    CipherRoundTrip(c, data, key);
    var e := EncryptAES128(c, data, key).value;
    StreamLaws.RoundTripIff(includeStart, StreamLaws.Message(command, vin, ENC_AES128, e));
  }

  lemma FoundIsShort(includeStart: bool, p: bytes)
    requires Scan(includeStart, p).Found?
    ensures |Scan(includeStart, p).pkt.data| < 0x1_0000
  {
    var skipped, f := ScanSplits(includeStart, p);
    FrameIsFrameOf(f, Scan(includeStart, p).pkt);
  }

  /** No packet payload can decrypt to more than that. */
  lemma DecryptedFits(c: BlockCipher, key: bytes, e: bytes)
    requires IsCipher(c) && |e| < 0x1_0000 && DecryptAES128(c, e, key).Ok?
    ensures |DecryptAES128(c, e, key).value| <= LONGEST_ENCRYPTED
  {
    DecryptedIsShorter(c, e, key);
  }

  /**
   With a key set, the receiver of a non-empty payload finds a frame that decrypts to it exactly when the payload
   has at most 65519 bytes: beyond that, padding takes it past the 16-bit length field.
   */
  lemma EncryptedSendIff(includeStart: bool, c: BlockCipher, key: bytes, vin: bytes, command: byte, data: bytes)
    requires IsCipher(c) && |key| == BLOCK && |vin| == VIN_LENGTH && data != []
    ensures var r := Scan(includeStart, SendFrame(c, Some(key), vin, command, data));
            r.Found? && DecryptAES128(c, r.pkt.data, key) == Ok(data) <==> |data| <= LONGEST_ENCRYPTED
  {
    var frame := SendFrame(c, Some(key), vin, command, data);
    var r := Scan(includeStart, frame);
    if |data| <= LONGEST_ENCRYPTED {
      EncryptedFrameReceived(includeStart, c, key, vin, command, data);
      CipherRoundTrip(c, data, key);
    } else if r.Found? && DecryptAES128(c, r.pkt.data, key) == Ok(data) {
      FoundIsShort(includeStart, frame);
      DecryptedFits(c, key, r.pkt.data);
    }
  }

  // ---- What the peer reads -----------------------------------------------------------------------------

  /** Command, VIN and payload a peer holding `key` reads from a frame, if that is all it receives. */
  function Opened(includeStart: bool, c: BlockCipher, key: Option<bytes>, frame: bytes): Option<(byte, bytes, bytes)>
    requires IsCipher(c)
  {
    var r := Scan(includeStart, frame);
    if r.Found? && r.rest == [] && Payload(c, key, r.pkt).Some?
    then Some((r.pkt.command, r.pkt.vin, Payload(c, key, r.pkt).value))
    else None
  }

  /** Every frame Send writes, encrypted or not, is opened by a peer with the same key, if the payload fits. */
  lemma FrameOpens(includeStart: bool, c: BlockCipher, key: Option<bytes>, vin: bytes, command: byte, data: bytes)
    requires IsCipher(c) && (key.Some? ==> |key.value| == BLOCK) && |vin| == VIN_LENGTH
    requires |data| <= LongestPayload(key)
    ensures Opened(includeStart, c, key, SendFrame(c, key, vin, command, data)) == Some((command, vin, data))
  {
    if key.Some? && data != [] {
      EncryptedFrameReceived(includeStart, c, key.value, vin, command, data);
      CipherRoundTrip(c, data, key.value);
    } else {
      StreamLaws.RoundTripIff(includeStart, StreamLaws.Message(command, vin, ENC_NONE, data));
    }
  }

  /** The last frame written after one more event. */
  predicate Answers(includeStart: bool, c: BlockCipher, es: seq<Event>, e: Event,
                    command: byte, vin: bytes, data: bytes)
    requires IsCipher(c)
  {
    var before, after := Run(c, es).wire, Run(c, es + [e]).wire;
    && |after| == |before| + 1 && before == after[..|before|]
    && Opened(includeStart, c, KeyInForce(c, es), after[|before|]) == Some((command, vin, data))
  }

  lemma OneFrameAnswers(includeStart: bool, c: BlockCipher, es: seq<Event>, e: Event,
                        command: byte, vin: bytes, data: bytes)
    requires IsCipher(c) && |vin| == VIN_LENGTH
    requires |data| <= LongestPayload(KeyInForce(c, es))
    requires var key := KeyInForce(c, es);
             && (key.Some? ==> |key.value| == BLOCK)
             && Run(c, es + [e]).wire == Run(c, es).wire + [SendFrame(c, key, vin, command, data)]
    ensures Answers(includeStart, c, es, e, command, vin, data)
  {
    FrameOpens(includeStart, c, KeyInForce(c, es), vin, command, data);
  }

  /**
   A heartbeat or a time calibration request on an open, logged-in connection is answered with one frame of the
   same command, in which the peer reads the server's time.
   */
  lemma TimeIsServed(includeStart: bool, c: BlockCipher, es: seq<Event>, pkt: Packet, env: Env)
    requires IsCipher(c) && RealVins(es) && |pkt.vin| == VIN_LENGTH
    requires pkt.command == CMD_HEARTBEAT || pkt.command == CMD_TIME_CALIBRATION
    requires Arrives(c, KeyInForce(c, es), PacketIn(pkt, env), pkt.command)
    requires !EverClosed(c, es) && LatestVin(c, es).Some?
    ensures Answers(includeStart, c, es, PacketIn(pkt, env), pkt.command, LatestVin(c, es).value, EncodeBCD(env.now))
    ensures IsCalendarTime(env.now) && 2000 <= env.now.year < 2160 ==> ParseBCD(EncodeBCD(env.now)) == env.now
  {
    var e := PacketIn(pkt, env);
    RunReflects(c, es);
    HistoryOneMore(c, es, e);
    OneFrameAnswers(includeStart, c, es, e, pkt.command, LatestVin(c, es).value, EncodeBCD(env.now));
    if IsCalendarTime(env.now) {
      TimeRoundTripIff(env.now);
    }
  }

  lemma LoginStep(c: BlockCipher, s: Conn, pkt: Packet, env: Env)
    requires IsCipher(c) && KeyFits(s) && s.socketOpen && |pkt.vin| == VIN_LENGTH
    requires IsLogin(c, s.key, PacketIn(pkt, env)) && env.reply.Respond?
    ensures var login := DecodeLogin(BCD, Payload(c, s.key, pkt).value).value;
            var data := LoginResponseBytes(env.reply.resp, login.time);
            Step(c, s, PacketIn(pkt, env)).wire == s.wire + [SendFrame(c, s.key, pkt.vin, CMD_LOGIN, data)]
  {
  }

  /**
   A login that the handler answers puts out one frame with the new VIN, readable under the key in force before the
   login and not the one its token establishes: time, sequence, result and token in this order.
   */
  lemma LoginIsAnswered(includeStart: bool, c: BlockCipher, es: seq<Event>, pkt: Packet, env: Env)
    requires IsCipher(c) && RealVins(es) && |pkt.vin| == VIN_LENGTH && !EverClosed(c, es)
    requires IsLogin(c, KeyInForce(c, es), PacketIn(pkt, env)) && env.reply.Respond?
    requires 9 + |env.reply.resp.token| <= LongestPayload(KeyInForce(c, es))
    ensures var key, resp, e := KeyInForce(c, es), env.reply.resp, PacketIn(pkt, env);
            var login := DecodeLogin(BCD, Payload(c, key, pkt).value).value;
            var t := if resp.time.Some? then resp.time.value else login.time;
            && Answers(includeStart, c, es, e, CMD_LOGIN, pkt.vin,
                       EncodeBCD(t) + Put16(resp.sequence) + [resp.result] + resp.token)
            && KeyInForce(c, es + [e]) == (if resp.token != [] then Some(DerivedKey(resp.token)) else key)
            && LatestVin(c, es + [e]) == Some(pkt.vin)
  {
    var e := PacketIn(pkt, env);
    var login := DecodeLogin(BCD, Payload(c, KeyInForce(c, es), pkt).value).value;
    RunReflects(c, es);
    HistoryOneMore(c, es, e);
    LoginStep(c, Run(c, es), pkt, env);
    OneFrameAnswers(includeStart, c, es, e, CMD_LOGIN, pkt.vin, LoginResponseBytes(env.reply.resp, login.time));
  }
}
