/**
 The other end of a connection: a peer that starts without a key, takes the token of each login response for its new
 key and drops the key with each logout it sends, and what it reads from the frames written to it.
 */
module Peer {
  import opened Bytes
  import opened BcdTime
  import opened Frame
  import opened Crypto
  import opened Tlv
  import opened Connections
  import opened Session
  import opened SessionLaws

  /** Command, VIN and payload of a frame. */
  datatype Letter = Letter(command: byte, vin: bytes, data: bytes)

  // ---- What is sent ------------------------------------------------------------------------------------

  /** Command and payload an event asks to send, under the key in force before it. */
  function Outgoing(c: BlockCipher, key: Option<bytes>, e: Event): Option<(byte, bytes)>
    requires IsCipher(c)
  {
    match e
    case SendCall(command, data) => Some((command, data))
    case CloseCall => None
    case PacketIn(pkt, env) =>
      if IsLogin(c, key, e) && env.reply.Respond? then
        var login := DecodeLogin(BCD, Payload(c, key, pkt).value).value;
        Some((CMD_LOGIN, LoginResponseBytes(env.reply.resp, login.time)))
      else if Arrives(c, key, e, CMD_HEARTBEAT) || Arrives(c, key, e, CMD_TIME_CALIBRATION) then
        Some((pkt.command, EncodeBCD(env.now)))
      else if Arrives(c, key, e, CMD_PARAM_QUERY) && |Payload(c, key, pkt).value| >= 7 && env.answer.Some? then
        Some((CMD_PARAM_QUERY_RESPONSE, env.answer.value))
      else None
  }

  /** The letter event `e` sends after `es`, if it sends one: the socket is open and some login has given a VIN. */
  function SentBy(c: BlockCipher, es: seq<Event>, e: Event): Option<Letter>
    requires IsCipher(c)
  {
    var o, vin := Outgoing(c, KeyInForce(c, es), e), LatestVin(c, es + [e]);
    if o.Some? && !EverClosed(c, es) && vin.Some? then Some(Letter(o.value.0, vin.value, o.value.1)) else None
  }

  /** All letters sent, in order. */
  function SentAll(c: BlockCipher, es: seq<Event>): seq<Letter>
    requires IsCipher(c)
  {
    if es == [] then []
    else
      var n := |es| - 1;
      var l := SentBy(c, es[..n], es[n]);
      SentAll(c, es[..n]) + (if l.Some? then [l.value] else [])
  }

  lemma LoginSends(c: BlockCipher, s: Conn, pkt: Packet, env: Env)
    requires IsCipher(c) && KeyFits(s) && IsLogin(c, s.key, PacketIn(pkt, env))
    ensures var t := Handled(c, s, pkt, env);
            var login := DecodeLogin(BCD, Payload(c, s.key, pkt).value).value;
            t.vin == pkt.vin
            && t.wire == if env.reply.Respond? && s.socketOpen && |pkt.vin| == VIN_LENGTH
                         then s.wire + [SendFrame(c, s.key, pkt.vin, CMD_LOGIN,
                                                  LoginResponseBytes(env.reply.resp, login.time))]
                         else s.wire
  {
  }

  lemma OtherSends(c: BlockCipher, s: Conn, pkt: Packet, env: Env)
    requires IsCipher(c) && KeyFits(s) && !IsLogin(c, s.key, PacketIn(pkt, env))
    ensures var t, o := Handled(c, s, pkt, env), Outgoing(c, s.key, PacketIn(pkt, env));
            t.vin == s.vin && t.wire == if o.Some? then Sent(c, s, o.value.0, o.value.1).wire else s.wire
  {
  }

  lemma StepSends(c: BlockCipher, s: Conn, e: Event)
    requires IsCipher(c) && KeyFits(s) && (s.state == Closed ==> !s.socketOpen)
    ensures var t, o := Step(c, s, e), Outgoing(c, s.key, e);
            t.wire == if o.Some? && s.socketOpen && |t.vin| == VIN_LENGTH
                      then s.wire + [SendFrame(c, s.key, t.vin, o.value.0, o.value.1)] else s.wire
  {
    match e {
      case PacketIn(pkt, env) =>
        if IsLogin(c, s.key, e) {
          LoginSends(c, s, pkt, env);
        } else {
          OtherSends(c, s, pkt, env);
        }
      case SendCall(_, _) =>
      case CloseCall =>
    }
  }

  /** What an event adds to the wire is the frame of the letter it sends. */
  lemma WireGrows(c: BlockCipher, es: seq<Event>, e: Event)
    requires IsCipher(c) && RealVins(es) && (e.PacketIn? ==> |e.pkt.vin| == VIN_LENGTH)
    ensures var l, key := SentBy(c, es, e), KeyInForce(c, es);
            && (key.Some? ==> |key.value| == BLOCK)
            && (l.Some? ==> |l.value.vin| == VIN_LENGTH)
            && Run(c, es + [e]).wire
               == if l.Some? then Run(c, es).wire + [SendFrame(c, key, l.value.vin, l.value.command, l.value.data)]
                  else Run(c, es).wire
  {
    RunReflects(c, es);
    StepReflects(c, es, e, Run(c, es));
    HistoryOneMore(c, es, e);
    StepSends(c, Run(c, es), e);
  }

  // ---- What is read ------------------------------------------------------------------------------------

  datatype Reader = Reader(key: Option<bytes>, letters: seq<Letter>)

  /** The reader's key after a letter. */
  function KeyAfter(key: Option<bytes>, l: Letter): Option<bytes>
  {
    if l.command == CMD_LOGIN && |l.data| > 9 then Some(DerivedKey(l.data[9..])) else key
  }

  /** A frame is opened with the reader's key; the token of a login response becomes its new key. */
  function ReadFrame(includeStart: bool, c: BlockCipher, r: Reader, frame: bytes): Reader
    requires IsCipher(c)
  {
    var o := Opened(includeStart, c, r.key, frame);
    if o.None? then r
    else
      var l := Letter(o.value.0, o.value.1, o.value.2);
      Reader(KeyAfter(r.key, l), r.letters + [l])
  }

  function ReadFrames(includeStart: bool, c: BlockCipher, r: Reader, frames: seq<bytes>): Reader
    requires IsCipher(c)
    decreases |frames|
  {
    if frames == [] then r else ReadFrames(includeStart, c, ReadFrame(includeStart, c, r, frames[0]), frames[1..])
  }

  /** The reader takes in the frames an event puts out, and drops its key if the event is a logout it sent. */
  function ReadEvent(includeStart: bool, c: BlockCipher, r: Reader, e: Event, frames: seq<bytes>): Reader
    requires IsCipher(c)
  {
    var q := ReadFrames(includeStart, c, r, frames);
    if IsLogout(c, r.key, e) then q.(key := None) else q
  }

  /** The peer of a connection with these events. */
  function Following(includeStart: bool, c: BlockCipher, es: seq<Event>): Reader
    requires IsCipher(c)
  {
    if es == [] then Reader(None, [])
    else
      var n := |es| - 1;
      var before, after := Run(c, es[..n]).wire, Run(c, es).wire;
      var frames := if |before| <= |after| then after[|before|..] else [];
      ReadEvent(includeStart, c, Following(includeStart, c, es[..n]), es[n], frames)
  }

  /**
   The letter event `e` sends fits a frame, and an application that sends a login response itself puts no token into
   it.
   */
  predicate Readable(c: BlockCipher, es: seq<Event>, e: Event)
    requires IsCipher(c)
  {
    var l := SentBy(c, es, e);
    l.Some? ==> |l.value.data| <= LongestPayload(KeyInForce(c, es))
                && (e.SendCall? && l.value.command == CMD_LOGIN ==> |l.value.data| <= 9)
  }

  predicate ReadableAt(c: BlockCipher, es: seq<Event>, n: nat)
    requires IsCipher(c) && n < |es|
  {
    Readable(c, es[..n], es[n])
  }

  ghost predicate AllReadable(c: BlockCipher, es: seq<Event>)
    requires IsCipher(c)
  {
    forall n: nat :: n < |es| ==> ReadableAt(c, es, n)
  }

  lemma ReadablePrefix(c: BlockCipher, es: seq<Event>, e: Event)
    requires IsCipher(c) && AllReadable(c, es + [e])
    ensures AllReadable(c, es) && Readable(c, es, e)
  {
    var all := es + [e];
    forall n: nat | n < |all|
      ensures Readable(c, all[..n], all[n])
    {
      assert ReadableAt(c, all, n);
    }
    assert all[..|es|] == es && all[|es|] == e;
    forall n: nat | n < |es|
      ensures ReadableAt(c, es, n)
    {
      assert all[..n] == es[..n] && all[n] == es[n];
    }
  }

  lemma LoginResponseToken(resp: LoginResponse, t: Time)
    ensures |LoginResponseBytes(resp, t)| == 9 + |resp.token| && LoginResponseBytes(resp, t)[9..] == resp.token
  {
  }

  /** The key the peer has after an event is the key in force, as long as the connection is open. */
  lemma KeyFollows(c: BlockCipher, es: seq<Event>, e: Event)
    requires IsCipher(c) && !EverClosed(c, es)
    requires Readable(c, es, e)
    ensures var l, key := SentBy(c, es, e), KeyInForce(c, es);
            KeyInForce(c, es + [e])
            == if IsLogout(c, key, e) then None else if l.Some? then KeyAfter(key, l.value) else key
  {
    HistoryOneMore(c, es, e);
    if IsLogin(c, KeyInForce(c, es), e) && e.env.reply.Respond? {
      var login := DecodeLogin(BCD, Payload(c, KeyInForce(c, es), e.pkt).value).value;
      var resp := e.env.reply.resp;
      LoginResponseToken(resp, login.time);
    }
  }

  /** A letter that fits is read by a reader with the same key. */
  lemma LetterIsRead(includeStart: bool, c: BlockCipher, r: Reader, l: Letter, frames: seq<bytes>)
    requires IsCipher(c) && (r.key.Some? ==> |r.key.value| == BLOCK)
    requires |l.vin| == VIN_LENGTH && |l.data| <= LongestPayload(r.key)
    requires frames == [SendFrame(c, r.key, l.vin, l.command, l.data)]
    ensures ReadFrames(includeStart, c, r, frames) == Reader(KeyAfter(r.key, l), r.letters + [l])
  {
    FrameOpens(includeStart, c, r.key, l.vin, l.command, l.data);
    assert frames[1..] == [];
  }

  /** One event: what the connection sends the peer reads, and afterwards they hold the same key. */
  lemma EventFollowed(includeStart: bool, c: BlockCipher, es: seq<Event>, e: Event, r: Reader, frames: seq<bytes>)
    requires IsCipher(c) && RealVins(es) && (e.PacketIn? ==> |e.pkt.vin| == VIN_LENGTH)
    requires Readable(c, es, e)
    requires !EverClosed(c, es) ==> r.key == KeyInForce(c, es)
    requires Run(c, es + [e]).wire == Run(c, es).wire + frames
    ensures var q, l := ReadEvent(includeStart, c, r, e, frames), SentBy(c, es, e);
            && q.letters == r.letters + (if l.Some? then [l.value] else [])
            && (!EverClosed(c, es + [e]) ==> q.key == KeyInForce(c, es + [e]))
  {
    WireGrows(c, es, e);
    var l := SentBy(c, es, e);
    FramesOf(c, Run(c, es).wire, frames, KeyInForce(c, es), l);
    if l.Some? {
      LetterIsRead(includeStart, c, r, l.value, frames);
    }
    HistoryOneMore(c, es, e);
    if !EverClosed(c, es) {
      KeyFollows(c, es, e);
    }
  }

  lemma FramesOf(c: BlockCipher, wire: seq<bytes>, frames: seq<bytes>, key: Option<bytes>, l: Option<Letter>)
    requires IsCipher(c) && (key.Some? ==> |key.value| == BLOCK)
    requires wire + frames
             == if l.Some? then wire + [SendFrame(c, key, l.value.vin, l.value.command, l.value.data)] else wire
    ensures frames == if l.Some? then [SendFrame(c, key, l.value.vin, l.value.command, l.value.data)] else []
  {
    assert frames == (wire + frames)[|wire|..];
  }

  /**
   A peer that follows the tokens and its own logouts reads exactly what was sent, letter by letter and in order,
   and as long as the connection is open holds the key in force.
   */
  lemma {:induction false} PeerReadsAll(includeStart: bool, c: BlockCipher, es: seq<Event>)
    requires IsCipher(c) && RealVins(es) && AllReadable(c, es)
    ensures Following(includeStart, c, es).letters == SentAll(c, es)
    ensures |Run(c, es).wire| == |SentAll(c, es)|
    ensures !EverClosed(c, es) ==> Following(includeStart, c, es).key == KeyInForce(c, es)
    decreases |es|
  {
    if es != [] {
      var n := |es| - 1;
      var before, e := es[..n], es[n];
      assert es == before + [e];
      ReadablePrefix(c, before, e);
      PeerReadsAll(includeStart, c, before);
      WireGrows(c, before, e);
      var earlier, now := Run(c, before).wire, Run(c, es).wire;
      assert now == earlier + now[|earlier|..];
      EventFollowed(includeStart, c, before, e, Following(includeStart, c, before), now[|earlier|..]);
    }
  }
}
