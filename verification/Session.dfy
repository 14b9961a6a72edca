/**
 One connection: what arrives, what is sent, under which VIN and key. Handlers and the authenticator are arbitrary;
 what they answer to a packet is part of the event.
 */
module Session {
  import opened Bytes
  import opened BcdTime
  import opened Frame
  import opened Scanning
  import opened StreamDecoder
  import opened Crypto
  import opened Tlv
  import opened Connections

  const CMD_LOGIN: byte := 0x01
  const CMD_LOGOUT: byte := 0x04
  const CMD_HEARTBEAT: byte := 0x07
  const CMD_TIME_CALIBRATION: byte := 0x08
  const CMD_PARAM_QUERY: byte := 0x80
  const CMD_PARAM_QUERY_RESPONSE: byte := 0x81

  /** A login response; a response without a time gets the login's own. */
  datatype LoginResponse = LoginResponse(time: Option<Time>, sequence: nat, result: byte, token: bytes)

  /** What the handler makes of a login. */
  datatype Reply = NoHandler | HandlerFailed | NoResponse | Respond(resp: LoginResponse)

  /**
   What the application contributes to a packet: whether the VIN is admitted, the reply to a login, the time sent
   for heartbeats and time calibration, and the answer to a parameter query, if any.
   */
  datatype Env = Env(admitted: bool, reply: Reply, now: Time, answer: Option<bytes>)

  datatype Conn = Conn(state: ConnState, vin: bytes, iccid: bytes, key: Option<bytes>, socketOpen: bool,
                       wire: seq<bytes>)

  const FRESH := Conn(New, [], [], None, true, [])

  // ---- Steps -------------------------------------------------------------------------------------------

  /** The frame Send writes for a payload. */
  function SendFrame(c: BlockCipher, key: Option<bytes>, vin: bytes, command: byte, data: bytes): bytes
    requires IsCipher(c) && (key.Some? ==> |key.value| == BLOCK)
  {
    if key.Some? && data != [] then
      FrameOf(command, RESP_SUCCESS, vin, ENC_AES128, EncryptAES128(c, data, key.value).value)
    else FrameOf(command, RESP_SUCCESS, vin, ENC_NONE, data)
  }

  predicate KeyFits(s: Conn)
  {
    s.key.Some? ==> |s.key.value| == BLOCK
  }

  /** Send: refused when closed, fails without a 17-byte VIN, and a closed socket takes nothing. */
  function Sent(c: BlockCipher, s: Conn, command: byte, data: bytes): (s': Conn)
    requires IsCipher(c) && KeyFits(s)
    ensures KeyFits(s')
  {
    if s.state == Closed || |s.vin| != VIN_LENGTH || !s.socketOpen then s
    else s.(wire := s.wire + [SendFrame(c, s.key, s.vin, command, data)])
  }

  function CloseConn(s: Conn): Conn
  {
    if s.state == Closed then s else s.(state := Closed, socketOpen := false)
  }

  /** The payload of a packet after the decryption at the top of handlePacket; None when that fails. */
  function Payload(c: BlockCipher, key: Option<bytes>, pkt: Packet): Option<bytes>
    requires IsCipher(c)
  {
    if pkt.encryptType == ENC_AES128 && key.Some? then
      var d := DecryptAES128(c, pkt.data, key.value);
      if d.Ok? then Some(d.value) else None
    else Some(pkt.data)
  }

  function LoginResponseBytes(resp: LoginResponse, loginTime: Time): bytes
  {
    var t := if resp.time.Some? then resp.time.value else loginTime;
    EncodeBCD(t) + Put16(resp.sequence) + [resp.result] + resp.token
  }

  /** A login whose VIN is admitted and whose payload decodes. */
  function LoginHandled(c: BlockCipher, s: Conn, vin: bytes, login: VehicleLogin, reply: Reply): (s': Conn)
    requires IsCipher(c) && KeyFits(s)
    ensures KeyFits(s')
  {
    var t := s.(vin := vin, iccid := login.iccid, state := LoggedIn);
    if reply.Respond? then
      var u := Sent(c, t, CMD_LOGIN, LoginResponseBytes(reply.resp, login.time));
      if reply.resp.token != [] then u.(key := Some(DerivedKey(reply.resp.token))) else u
    else t
  }

  /** handlePacket, as far as it touches the connection. */
  function Handled(c: BlockCipher, s: Conn, pkt: Packet, env: Env): (s': Conn)
    requires IsCipher(c) && KeyFits(s)
    ensures KeyFits(s')
  {
    var payload := Payload(c, s.key, pkt);
    if payload.None? then s
    else if pkt.command == CMD_LOGIN then
      if !env.admitted then CloseConn(s)
      else
        var login := DecodeLogin(BCD, payload.value);
        if login.Err? then s else LoginHandled(c, s, pkt.vin, login.value, env.reply)
    else if pkt.command == CMD_LOGOUT then
      if LogoutDecodes(payload.value) then s.(key := None) else s
    else if pkt.command == CMD_HEARTBEAT || pkt.command == CMD_TIME_CALIBRATION then
      Sent(c, s, pkt.command, EncodeBCD(env.now))
    else if pkt.command == CMD_PARAM_QUERY && |payload.value| >= 7 && env.answer.Some? then
      Sent(c, s, CMD_PARAM_QUERY_RESPONSE, env.answer.value)
    else s
  }

  /** What the application answers to the packet with this number, in the state it finds. */
  type Application = (nat, Conn, Packet) -> Env

  ghost predicate NeverReopens(h: (nat, Conn, Packet) -> Conn)
  {
    forall n, s, pkt :: h(n, s, pkt).socketOpen ==> s.socketOpen
  }

  /** What a connection becomes with the packet of this number. A closed socket stays closed. */
  type Handler = h: (nat, Conn, Packet) -> Conn | NeverReopens(h) ghost witness (_, s, _) => s

  ghost function Answering(c: BlockCipher, app: Application): (nat, Conn, Packet) -> Conn
  {
    (n: nat, s: Conn, pkt: Packet) => if IsCipher(c) && KeyFits(s) then Handled(c, s, pkt, app(n, s, pkt)) else s
  }

  lemma HandledNeverReopens(c: BlockCipher, s: Conn, pkt: Packet, env: Env)
    requires IsCipher(c) && KeyFits(s)
    ensures Handled(c, s, pkt, env).socketOpen ==> s.socketOpen
  {
  }

  lemma AnsweringNeverReopens(c: BlockCipher, app: Application)
    ensures NeverReopens(Answering(c, app))
  {
    forall n: nat, s: Conn, pkt: Packet | IsCipher(c) && KeyFits(s)
      ensures Handled(c, s, pkt, app(n, s, pkt)).socketOpen ==> s.socketOpen
    {
      HandledNeverReopens(c, s, pkt, app(n, s, pkt));
    }
  }

  ghost predicate Implements(h: Handler, c: BlockCipher, app: Application)
  {
    forall n, s, pkt {:trigger app(n, s, pkt)} ::
      IsCipher(c) && KeyFits(s) ==> h(n, s, pkt) == Handled(c, s, pkt, app(n, s, pkt))
  }

  /** handlePacket, the application answering. */
  ghost function PacketHandler(c: BlockCipher, app: Application): (h: Handler)
    ensures Implements(h, c, app)
  {
    AnsweringNeverReopens(c, app);
    assert Implements(Answering(c, app), c, app);
    var h: Handler :| Implements(h, c, app);
    h
  }

  /** All packets of one drain, the first of them number `n` of the connection's life. */
  ghost function HandledAll(h: Handler, n: nat, s: Conn, pkts: seq<Packet>): Conn
    decreases |pkts|
  {
    if pkts == [] then s else HandledAll(h, n + 1, h(n, s, pkts[0]), pkts[1..])
  }

  /** Connection, packets handled so far, and condition of the decoder. */
  datatype Life = Life(conn: Conn, handled: nat, end: End)

  /** Handling packets as they are decoded, until there is none or the decoder panics. */
  ghost function Handling(h: Handler, includeStart: bool, n: nat, s: Conn, p: bytes): Life
    decreases |p|
  {
    var r := Scan(includeStart, p);
    ScanShrinks(includeStart, p);
    if r.Found? then Handling(h, includeStart, n + 1, h(n, s, r.pkt), r.rest) else Life(s, n, Hold(r))
  }

  lemma HandlingStep(h: Handler, includeStart: bool, n: nat, s: Conn, p: bytes, r: ScanResult)
    requires r == Scan(includeStart, p)
    ensures Handling(h, includeStart, n, s, p)
            == if r.Found? then Handling(h, includeStart, n + 1, h(n, s, r.pkt), r.rest) else Life(s, n, Hold(r))
  {
  }

  lemma HandledCons(h: Handler, n: nat, s: Conn, pkt: Packet, pkts: seq<Packet>)
    ensures HandledAll(h, n, s, [pkt] + pkts) == HandledAll(h, n + 1, h(n, s, pkt), pkts)
  {
    assert ([pkt] + pkts)[1..] == pkts;
  }

  /** It comes to the same as handling all packets of the drain. */
  lemma {:induction false} HandlingIsDrain(h: Handler, includeStart: bool, n: nat, s: Conn, p: bytes)
    ensures var d := Observe(Drain(includeStart, p));
            Handling(h, includeStart, n, s, p) == Life(HandledAll(h, n, s, d.packets), n + |d.packets|, d.end)
    decreases |p|
  {
    var r := Scan(includeStart, p);
    HandlingStep(h, includeStart, n, s, p, r);
    if r.Found? {
      ScanShrinks(includeStart, p);
      var t, rest := h(n, s, r.pkt), Observe(Drain(includeStart, r.rest));
      HandlingIsDrain(h, includeStart, n + 1, t, r.rest);
      HandledCons(h, n, s, r.pkt, rest.packets);
      assert Observe(Drain(includeStart, p)) == Outcome([r.pkt] + rest.packets, rest.end);
    } else {
      assert Observe(Drain(includeStart, p)) == Outcome([], Hold(r));
    }
  }

  // ---- Reads -------------------------------------------------------------------------------------------

  /** Nothing is read any more: the decoder panicked, or the socket is closed and the context cancelled. */
  predicate Over(l: Life)
  {
    l.end.Crashed? || !l.conn.socketOpen
  }

  /** One read: all packets it completes are handled, also those after one that closes the connection. */
  ghost function Read(h: Handler, includeStart: bool, l: Life, chunk: bytes): Life
  {
    if Over(l) then l else Handling(h, includeStart, l.handled, l.conn, l.end.pending + chunk)
  }

  /** Chunks that arrive one after another, as far as they are read. */
  ghost function Reads(h: Handler, includeStart: bool, l: Life, chunks: seq<bytes>): Life
  {
    if chunks == [] then l
    else Read(h, includeStart, Reads(h, includeStart, l, chunks[..|chunks| - 1]), chunks[|chunks| - 1])
  }

  lemma ReadsSnoc(h: Handler, includeStart: bool, l: Life, chunks: seq<bytes>, n: nat)
    requires n < |chunks|
    ensures Reads(h, includeStart, l, chunks[..n + 1])
            == Read(h, includeStart, Reads(h, includeStart, l, chunks[..n]), chunks[n])
  {
    assert chunks[..n + 1][..n] == chunks[..n];
  }

  /** Once over, a life does not change. */
  lemma {:induction false} OverForGood(h: Handler, includeStart: bool, l: Life, chunks: seq<bytes>, n: nat)
    requires n <= |chunks| && Over(Reads(h, includeStart, l, chunks[..n]))
    ensures Reads(h, includeStart, l, chunks) == Reads(h, includeStart, l, chunks[..n])
    decreases |chunks| - n
  {
    if n == |chunks| {
      assert chunks[..n] == chunks;
    } else {
      ReadsSnoc(h, includeStart, l, chunks, n);
      OverForGood(h, includeStart, l, chunks, n + 1);
    }
  }

  /** The first `i` chunks, as far as they are read. */
  ghost function FirstReads(h: Handler, includeStart: bool, l: Life, chunks: seq<bytes>, i: nat): Life
    requires i <= |chunks|
  {
    if i == 0 then l else Read(h, includeStart, FirstReads(h, includeStart, l, chunks, i - 1), chunks[i - 1])
  }

  lemma {:induction false} FirstReadsAre(h: Handler, includeStart: bool, l: Life, chunks: seq<bytes>, i: nat)
    requires i <= |chunks|
    ensures FirstReads(h, includeStart, l, chunks, i) == Reads(h, includeStart, l, chunks[..i])
  {
    if i > 0 {
      FirstReadsAre(h, includeStart, l, chunks, i - 1);
      ReadsSnoc(h, includeStart, l, chunks, i - 1);
    }
  }

  lemma ReadsStop(h: Handler, includeStart: bool, l: Life, chunks: seq<bytes>, n: nat)
    requires n <= |chunks| && (n < |chunks| ==> Over(FirstReads(h, includeStart, l, chunks, n)))
    ensures Reads(h, includeStart, l, chunks) == FirstReads(h, includeStart, l, chunks, n)
  {
    FirstReadsAre(h, includeStart, l, chunks, n);
    if n < |chunks| {
      OverForGood(h, includeStart, l, chunks, n);
    } else {
      assert chunks[..n] == chunks;
    }
  }

  // ---- The connection object ---------------------------------------------------------------------------

  datatype SendError = ErrClosed | ErrInvalidVIN | ErrWrite

  class Connection {
    const cipher: BlockCipher
    const decoder: Decoder
    var state: ConnState
    var vin: bytes
    var iccid: bytes
    var encryptKey: Option<bytes>
    var socketOpen: bool
    var wire: seq<bytes>

    ghost predicate Valid()
      reads this, decoder
    {
      IsCipher(cipher) && KeyFits(View()) && decoder.Valid()
    }

    ghost function View(): Conn
      reads this
    {
      Conn(state, vin, iccid, encryptKey, socketOpen, wire)
    }

    constructor (cipher: BlockCipher, includeStart: bool)
      requires IsCipher(cipher)
      ensures Valid() && View() == FRESH && this.cipher == cipher
      ensures fresh(decoder) && decoder.Pending() == [] && decoder.bccIncludeStart == includeStart
    {
      this.cipher := cipher;
      decoder := new Decoder(includeStart);
      state, vin, iccid, encryptKey, socketOpen, wire := New, [], [], None, true, [];
    }

    method Send(command: byte, data: bytes) returns (err: Option<SendError>)
      requires Valid()
      modifies this
      ensures Valid() && View() == Sent(cipher, old(View()), command, data)
      ensures err.None? <==> |wire| == |old(wire)| + 1
    {
      if state == Closed {
        return Some(ErrClosed);
      }
      var encType, payload := ENC_NONE, data;
      if encryptKey.Some? && |data| > 0 {
        payload := EncryptAES128(cipher, data, encryptKey.value).value;
        encType := ENC_AES128;
      }
      var pkt := EncodeResponse(command, vin, encType, payload);
      if pkt.Err? {
        return Some(ErrInvalidVIN);
      }
      if !socketOpen {
        return Some(ErrWrite);
      }
      wire := wire + [pkt.value];
      return None;
    }

    method Close()
      requires Valid()
      modifies this
      ensures Valid() && View() == CloseConn(old(View()))
    {
      if state == Closed {
        return;
      }
      state := Closed;
      socketOpen := false;
    }

    method HandlePacket(pkt: Packet, env: Env)
      requires Valid()
      modifies this
      ensures Valid() && View() == Handled(cipher, old(View()), pkt, env)
    {
      var data := pkt.data;
      if pkt.encryptType == ENC_AES128 && encryptKey.Some? {
        var d := DecryptAES128(cipher, pkt.data, encryptKey.value);
        if d.Err? {
          return;
        }
        data := d.value;
      }
      match pkt.command {
        case 0x01 => HandleLogin(pkt.vin, data, env);
        case 0x04 =>
          if |data| < 8 {
            return;
          }
          encryptKey := None;
        case 0x07 => var _ := Send(CMD_HEARTBEAT, EncodeBCD(env.now));
        case 0x08 => var _ := Send(CMD_TIME_CALIBRATION, EncodeBCD(env.now));
        case 0x80 =>
          if |data| >= 7 && env.answer.Some? {
            var _ := Send(CMD_PARAM_QUERY_RESPONSE, env.answer.value);
          }
        case _ =>
      }
    }

    method HandleLogin(packetVin: bytes, data: bytes, env: Env)
      requires Valid()
      modifies this
      ensures Valid()
      ensures View() == if !env.admitted then CloseConn(old(View()))
                        else if DecodeLogin(BCD, data).Err? then old(View())
                        else LoginHandled(cipher, old(View()), packetVin, DecodeLogin(BCD, data).value, env.reply)
    {
      if !env.admitted {
        Close();
        return;
      }
      var login := DecodeLoginData(BCD, data);
      if login.Err? {
        return;
      }
      vin := packetVin;
      iccid := login.value.iccid;
      state := LoggedIn;
      if env.reply.Respond? {
        var resp := env.reply.resp;
        var _ := Send(CMD_LOGIN, LoginResponseBytes(resp, login.value.time));
        if |resp.token| > 0 {
          var key := DeriveAESKey(resp.token);
          encryptKey := Some(key);
        }
      }
    }

    method HandleNext(pkt: Packet, app: Application, n: nat)
      requires Valid()
      modifies this
      ensures Valid() && View() == PacketHandler(cipher, app)(n, old(View()), pkt)
    {
      var env := app(n, Conn(state, vin, iccid, encryptKey, socketOpen, wire), pkt);
      HandlePacket(pkt, env);
    }

    /**
     Decode and handle packets until there is none, or the decoder panics. `handled` packets were handled before, `n`
     are afterwards.
     */
    method ProcessPackets(app: Application, handled: nat) returns (n: nat, panicked: bool)
      requires Valid()
      modifies this, decoder
      ensures Valid()
      ensures Life(View(), n, if panicked then Crashed else Waiting(decoder.Pending()))
              == Handling(PacketHandler(cipher, app), decoder.bccIncludeStart, handled,
                          old(View()), old(decoder.Pending()))
    {
      n := handled;
      ghost var h, b, p := PacketHandler(cipher, app), decoder.bccIncludeStart, decoder.Pending();
      ghost var s := View();
      ghost var end := Handling(h, b, n, s, p);
      while true
        invariant Valid() && decoder.Pending() == p && View() == s
        invariant end == Handling(h, b, n, s, p)
        decreases |p|
      {
        ghost var found := Scan(b, p);
        ScanShrinks(b, p);
        HandlingStep(h, b, n, s, p, found);
        var r := decoder.Decode();
        match r {
          case NoPacket => return n, false;
          case Panic => return n, true;
          case GotPacket(pkt) =>
            HandleNext(pkt, app, n);
            s, p, n := h(n, s, pkt), found.rest, n + 1;
        }
      }
    }

    /** Feed what was read, then handle what it completes. */
    method Receive(chunk: bytes, app: Application, handled: nat) returns (n: nat, panicked: bool)
      requires Valid()
      modifies this, decoder
      ensures Valid()
      ensures Life(View(), n, if panicked then Crashed else Waiting(decoder.Pending()))
              == Handling(PacketHandler(cipher, app), decoder.bccIncludeStart, handled,
                          old(View()), old(decoder.Pending()) + chunk)
    {
      decoder.Feed(chunk);
      n, panicked := ProcessPackets(app, handled);
    }

    /** The read loop: until the connection is closed, the decoder panics or no more arrives. */
    method ReadLoop(chunks: seq<bytes>, app: Application) returns (n: nat, panicked: bool)
      requires Valid()
      modifies this, decoder
      ensures Valid()
      ensures Life(View(), n, if panicked then Crashed else Waiting(decoder.Pending()))
              == Reads(PacketHandler(cipher, app), decoder.bccIncludeStart,
                       Life(old(View()), 0, Waiting(old(decoder.Pending()))), chunks)
    {
      ghost var start := Life(View(), 0, Waiting(decoder.Pending()));
      ghost var h, b := PacketHandler(cipher, app), decoder.bccIncludeStart;
      n, panicked := 0, false;
      ghost var l := start;
      var i := 0;
      while i < |chunks| && socketOpen && !panicked
        invariant 0 <= i <= |chunks| && Valid()
        invariant l == FirstReads(h, b, start, chunks, i)
        invariant l == Life(View(), n, if panicked then Crashed else Waiting(decoder.Pending()))
      {
        var c := chunks[i];
        n, panicked := Receive(c, app, n);
        l := Read(h, b, l, c);
        i := i + 1;
      }
      ReadsStop(h, b, start, chunks, i);
    }

    /** A connection's goroutine: the read loop, and Close when it ends, by a panic or otherwise. */
    method Serve(chunks: seq<bytes>, app: Application) returns (panicked: bool)
      requires Valid()
      modifies this, decoder
      ensures Valid()
      ensures var l := Reads(PacketHandler(cipher, app), decoder.bccIncludeStart,
                             Life(old(View()), 0, Waiting(old(decoder.Pending()))), chunks);
              View() == CloseConn(l.conn) && (panicked <==> l.end.Crashed?)
    {
      var n;
      n, panicked := ReadLoop(chunks, app);
      Close();
    }
  }
}
