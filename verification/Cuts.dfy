/**
 Where a stream may be cut: the safe points in terms of byte positions, and the exact condition on the chunks under
 which a sender's frames all arrive.
 */
module Cuts {
  import opened Bytes
  import opened Frame
  import opened Scanning
  import opened Stream
  import opened StreamLaws

  // ---- Any bytes ---------------------------------------------------------------------------------------

  /** What is left of `p` after its last packet. */
  function Undrained(includeStart: bool, p: bytes): bytes
    decreases |p|
  {
    var r := Scan(includeStart, p);
    ScanShrinks(includeStart, p);
    if r.Found? then Undrained(includeStart, r.rest) else p
  }

  lemma {:induction false} DroppedTail(includeStart: bool, p: bytes)
    ensures var r := Scan(includeStart, p); r.NoMarker? ==> (EndsInStart(r.tail) <==> EndsInStart(p))
    decreases |p|
  {
    var i := FirstMarker(p);
    if i >= 0 && Judge(includeStart, p[i..]) == Bad {
      DroppedTail(includeStart, p[i..][2..]);
    }
  }

  /**
   Unsafe points by their bytes: after the last packet, the first live candidate lacks just its check character, or
   every candidate is rejected and the last byte is a start byte.
   */
  lemma {:induction false} UnsafePointIff(includeStart: bool, p: bytes)
    ensures var q := Undrained(includeStart, p);
            !SafePoint(includeStart, p)
            <==> RestsOneByteShort(includeStart, q) || (AllRejected(includeStart, q) && EndsInStart(q))
    decreases |p|
  {
    var r := Scan(includeStart, p);
    if r.Found? {
      ScanShrinks(includeStart, p);
      UnsafePointIff(includeStart, r.rest);
    } else {
      FaultIff(includeStart, p);
      ScanPicksFirstLive(includeStart, p);
      DroppedTail(includeStart, p);
    }
  }

  // ---- One frame ---------------------------------------------------------------------------------------

  /** What a scan finds in the first `k` bytes of a frame. */
  lemma FramePrefix(includeStart: bool, f: bytes, pkt: Packet, k: nat)
    requires IsFrame(f, pkt) && k <= |f|
    ensures Scan(includeStart, f[..k]) == if k < 2 then NoMarker(f[..k])
                                          else if k < |f| - 1 then Partial(f[..k])
                                          else if k == |f| - 1 then Fault
                                          else Found(pkt, [])
  {
    var g := f[..k];
    if k == |f| {
      FrameIsFound(includeStart, f, pkt, []);
      assert f + [] == g;
    } else if k >= 2 {
      assert MarkerAt(g, 0) && FirstMarker(g) == 0 && g[0..] == g;
      assert k >= HEADER_SIZE ==> DataLen(g) == DataLen(f);
    }
  }

  lemma SafeInFrame(includeStart: bool, f: bytes, pkt: Packet, k: nat)
    requires IsFrame(f, pkt) && k <= |f|
    ensures SafePoint(includeStart, f[..k]) <==> k != 1 && k != |f| - 1
  {
    FramePrefix(includeStart, f, pkt, k);
    assert Drain(includeStart, []) == DrainResult([], NoMarker([]));
  }

  // ---- A stream of frames ------------------------------------------------------------------------------

  /** Position `k` of the frames of `pkts`: neither between two start bytes nor right before a check character. */
  predicate GoodCut(pkts: seq<Packet>, k: nat)
  {
    pkts == [] || (
      var size := 25 + |pkts[0].data|;
      if k <= size then k != 1 && k != size - 1 else GoodCut(pkts[1..], k - size)
    )
  }

  lemma CutAfterFrame(includeStart: bool, f: bytes, pkt: Packet, p: bytes)
    requires IsFrame(f, pkt)
    ensures SafePoint(includeStart, f + p) <==> SafePoint(includeStart, p)
  {
    FrameIsDrained(includeStart, f, pkt, p);
  }

  lemma TakeOfConcat(a: bytes, b: bytes, k: nat)
    requires k <= |a + b|
    ensures (a + b)[..k] == if k <= |a| then a[..k] else a + b[..k - |a|]
  {
  }

  /** In a stream of frames a cut is safe exactly at the good positions. */
  lemma {:induction false} SafeCutIff(includeStart: bool, pkts: seq<Packet>, k: nat)
    requires AllCarriable(pkts) && k <= |FrameStream(pkts)|
    ensures SafePoint(includeStart, FrameStream(pkts)[..k]) <==> GoodCut(pkts, k)
    decreases |pkts|
  {
    if pkts == [] {
      assert Drain(includeStart, []) == DrainResult([], NoMarker([]));
    } else {
      var f, rest := FrameFor(pkts[0]), FrameStream(pkts[1..]);
      FrameOfIsFrame(pkts[0]);
      TakeOfConcat(f, rest, k);
      if k <= |f| {
        SafeInFrame(includeStart, f, pkts[0], k);
      } else {
        CutAfterFrame(includeStart, f, pkts[0], rest[..k - |f|]);
        SafeCutIff(includeStart, pkts[1..], k - |f|);
      }
    }
  }

  /** After whole messages and part of one more, a cut is unsafe exactly after its first byte and before its last. */
  lemma {:induction false} SafeCutInMessage(includeStart: bool, ms: seq<Message>, m: Message, k: nat)
    requires Encodable(ms) && Encodable([m]) && k <= |Wire(m)|
    ensures SafePoint(includeStart, WireStream(ms) + Wire(m)[..k]) <==> k != 1 && k != |Wire(m)| - 1
    decreases |ms|
  {
    if ms == [] {
      assert [m][0] == m && [] + Wire(m)[..k] == Wire(m)[..k];
      FrameOfIsFrame(Received(m));
      SafeInFrame(includeStart, Wire(m), Received(m), k);
    } else {
      var rest := WireStream(ms[1..]) + Wire(m)[..k];
      Assoc(Wire(ms[0]), WireStream(ms[1..]), Wire(m)[..k]);
      FrameOfIsFrame(Received(ms[0]));
      CutAfterFrame(includeStart, Wire(ms[0]), Received(ms[0]), rest);
      SafeCutInMessage(includeStart, ms[1..], m, k);
    }
  }

  // ---- What bytes can yield ----------------------------------------------------------------------------

  /** The bytes the frames of `pkts` take. */
  function Weight(pkts: seq<Packet>): nat
  {
    if pkts == [] then 0 else 25 + |pkts[0].data| + Weight(pkts[1..])
  }

  lemma {:induction false} WeightConcat(a: seq<Packet>, b: seq<Packet>)
    ensures Weight(a + b) == Weight(a) + Weight(b)
    decreases |a|
  {
    if a == [] {
      assert a + b == b;
    } else {
      assert (a + b)[1..] == a[1..] + b;
      WeightConcat(a[1..], b);
    }
  }

  lemma {:induction false} WeightOfStream(pkts: seq<Packet>)
    requires AllCarriable(pkts)
    ensures |FrameStream(pkts)| == Weight(pkts)
    decreases |pkts|
  {
    if pkts != [] {
      WeightOfStream(pkts[1..]);
    }
  }

  lemma {:induction false} WeightOfMember(pkts: seq<Packet>, pkt: Packet)
    requires pkt in pkts
    ensures 25 + |pkt.data| <= Weight(pkts)
    decreases |pkts|
  {
    if pkt != pkts[0] {
      WeightOfMember(pkts[1..], pkt);
    }
  }

  /** The bytes kept by a drain, or thrown away at its end. */
  function Left(r: ScanResult): bytes
  {
    match r
    case NoMarker(tail) => tail
    case Partial(rest) => rest
    case Fault => []
    case Found(_, rest) => rest
  }

  /** Packets take their frames' bytes, none of them twice. */
  lemma {:induction false} DrainFits(includeStart: bool, p: bytes)
    ensures var d := Drain(includeStart, p); Weight(d.packets) + |Left(d.last)| <= |p|
    decreases |p|
  {
    var skipped, frame := ScanSplits(includeStart, p);
    var r := Scan(includeStart, p);
    if r.Found? {
      FrameIsFrameOf(frame, r.pkt);
      ScanShrinks(includeStart, p);
      DrainFits(includeStart, r.rest);
      var d := Drain(includeStart, r.rest);
      assert ([r.pkt] + d.packets)[1..] == d.packets;
    }
  }

  /** The decoder panicked, or some of the first `n` bytes are lost for good. */
  predicate Lost(o: Outcome, n: nat)
  {
    o.end.Crashed? || Weight(o.packets) + |o.end.pending| < n
  }

  lemma LostStaysLost(includeStart: bool, o: Outcome, n: nat, chunk: bytes)
    requires Lost(o, n)
    ensures Lost(Resume(includeStart, o, chunk), n + |chunk|)
  {
    if o.end.Waiting? {
      var d := Drain(includeStart, o.end.pending + chunk);
      DrainFits(includeStart, o.end.pending + chunk);
      WeightConcat(o.packets, d.packets);
    }
  }

  lemma UnsafeLoses(includeStart: bool, p: bytes)
    requires !SafePoint(includeStart, p)
    ensures Lost(Observe(Drain(includeStart, p)), |p|)
  {
    DrainFits(includeStart, p);
  }

  // ---- Any way of cutting ------------------------------------------------------------------------------

  /** Every chunk starts at a safe point of the stream. */
  ghost predicate AllSafe(includeStart: bool, chunks: seq<bytes>)
  {
    forall j: nat :: j < |chunks| ==> SafePoint(includeStart, Flat(chunks[..j]))
  }

  lemma AllSafeSnoc(includeStart: bool, chunks: seq<bytes>, n: nat)
    requires n < |chunks|
    ensures AllSafe(includeStart, chunks[..n + 1])
            <==> AllSafe(includeStart, chunks[..n]) && SafePoint(includeStart, Flat(chunks[..n]))
  {
    var more, some := chunks[..n + 1], chunks[..n];
    forall j: nat | j <= n
      ensures more[..j] == chunks[..j] && (j < n ==> some[..j] == chunks[..j])
    {
    }
    assert more[..n] == chunks[..n];
    if AllSafe(includeStart, more) {
      forall j: nat | j < n
        ensures SafePoint(includeStart, Flat(some[..j]))
      {
        assert some[..j] == more[..j];
      }
    }
  }

  /** Cut at safe points only, a stream is decoded as a whole; otherwise bytes are lost, or the decoder panics. */
  lemma {:induction false} CutsDecide(includeStart: bool, chunks: seq<bytes>, n: nat)
    requires n <= |chunks|
    ensures var o, p := Run(includeStart, chunks[..n]), Flat(chunks[..n]);
            if AllSafe(includeStart, chunks[..n]) then o == Observe(Drain(includeStart, p)) else Lost(o, |p|)
  {
    if n > 0 {
      var p, c := Flat(chunks[..n - 1]), chunks[n - 1];
      CutsDecide(includeStart, chunks, n - 1);
      AllSafeSnoc(includeStart, chunks, n - 1);
      FlatCut(chunks, n - 1);
      RunSnoc(includeStart, chunks, n - 1);
      if AllSafe(includeStart, chunks[..n]) {
        DrainAppend(includeStart, p, c);
      } else {
        if AllSafe(includeStart, chunks[..n - 1]) {
          UnsafeLoses(includeStart, p);
        }
        LostStaysLost(includeStart, Run(includeStart, chunks[..n - 1]), |p|, c);
      }
    }
  }

  /** Every chunk starts at a good position of the frames of `pkts`. */
  predicate GoodCuts(pkts: seq<Packet>, chunks: seq<bytes>)
  {
    forall j: nat :: j < |chunks| ==> GoodCut(pkts, |Flat(chunks[..j])|)
  }

  lemma {:induction false} FlatPrefix(chunks: seq<bytes>, j: nat)
    requires j <= |chunks|
    ensures |Flat(chunks[..j])| <= |Flat(chunks)| && Flat(chunks[..j]) == Flat(chunks)[..|Flat(chunks[..j])|]
    decreases |chunks| - j
  {
    if j == |chunks| {
      assert chunks[..j] == chunks;
    } else {
      FlatPrefix(chunks, j + 1);
      FlatCut(chunks, j);
    }
  }

  lemma GoodIsSafe(includeStart: bool, pkts: seq<Packet>, chunks: seq<bytes>)
    requires AllCarriable(pkts) && Flat(chunks) == FrameStream(pkts)
    ensures AllSafe(includeStart, chunks) <==> GoodCuts(pkts, chunks)
  {
    forall j: nat | j < |chunks|
      ensures SafePoint(includeStart, Flat(chunks[..j])) <==> GoodCut(pkts, |Flat(chunks[..j])|)
    {
      FlatPrefix(chunks, j);
      SafeCutIff(includeStart, pkts, |Flat(chunks[..j])|);
    }
  }

  /**
   The chunked round trip: frames that arrive in any chunks are returned one by one with nothing pending exactly when
   no chunk starts between the two start bytes of a frame or at its check character.
   */
  lemma ChunkedRoundTripIff(includeStart: bool, pkts: seq<Packet>, chunks: seq<bytes>)
    requires AllCarriable(pkts) && Flat(chunks) == FrameStream(pkts)
    ensures Run(includeStart, chunks) == Outcome(pkts, Waiting([])) <==> GoodCuts(pkts, chunks)
  {
    CutsDecide(includeStart, chunks, |chunks|);
    assert chunks[..|chunks|] == chunks;
    GoodIsSafe(includeStart, pkts, chunks);
    FramesRoundTrip(includeStart, pkts);
    WeightOfStream(pkts);
  }

  /** The same for what the frame encoder sends. */
  lemma MessagesArriveIff(includeStart: bool, ms: seq<Message>, chunks: seq<bytes>)
    requires Encodable(ms) && Flat(chunks) == WireStream(ms)
    ensures Run(includeStart, chunks) == Outcome(ReceivedAll(ms), Waiting([])) <==> GoodCuts(ReceivedAll(ms), chunks)
  {
    WireIsFrameStream(ms);
    ChunkedRoundTripIff(includeStart, ReceivedAll(ms), chunks);
  }

  // ---- One frame in two chunks -------------------------------------------------------------------------

  lemma TwoChunks(f: bytes, k: nat)
    requires k <= |f|
    ensures var cs := [f[..k], f[k..]]; Flat(cs) == f && Flat(cs[..0]) == [] && Flat(cs[..1]) == f[..k]
  {
    var cs := [f[..k], f[k..]];
    FlatCut(cs, 0);
    FlatCut(cs, 1);
    assert cs[..2] == cs && [] + f[..k] == f[..k];
  }

  /** A frame cut in two arrives exactly when it is cut neither after its first byte nor before its last. */
  lemma FrameCutIff(includeStart: bool, f: bytes, pkt: Packet, k: nat)
    requires IsFrame(f, pkt) && k <= |f|
    ensures Run(includeStart, [f[..k], f[k..]]) == Outcome([pkt], Waiting([])) <==> k != 1 && k != |f| - 1
  {
    var cs := [f[..k], f[k..]];
    FrameIsFrameOf(f, pkt);
    assert FrameStream([pkt]) == f + [] == f;
    TwoChunks(f, k);
    ChunkedRoundTripIff(includeStart, [pkt], cs);
    assert GoodCut([pkt], |Flat(cs[..0])|) && (GoodCut([pkt], |Flat(cs[..1])|) <==> k != 1 && k != |f| - 1);
  }

  /** A first chunk without a marker is forgotten. */
  lemma ForgottenChunk(includeStart: bool, a: bytes, c: bytes)
    requires Scan(includeStart, a).NoMarker?
    ensures Run(includeStart, [a, c]) == Observe(Drain(includeStart, c))
  {
    var cs := [a, c];
    RunSnoc(includeStart, cs, 0);
    RunSnoc(includeStart, cs, 1);
    assert cs[..0] == [] && cs[..2] == cs;
    ResumeFresh(includeStart, [], a);
    ResumeFresh(includeStart, [], c);
    assert [] + a == a && [] + c == c;
  }

  /** A cut between the two start bytes of a frame throws that frame away, whatever its bytes are taken for then. */
  lemma CutMarkerLosesFrame(includeStart: bool, f: bytes, pkt: Packet)
    requires IsFrame(f, pkt)
    ensures Drain(includeStart, f).packets == [pkt]
    ensures pkt !in Run(includeStart, [f[..1], f[1..]]).packets
  {
    FrameIsDrained(includeStart, f, pkt, []);
    assert f + [] == f && Drain(includeStart, []) == DrainResult([], NoMarker([]));
    FramePrefix(includeStart, f, pkt, 1);
    ForgottenChunk(includeStart, f[..1], f[1..]);
    DrainFits(includeStart, f[1..]);
    if pkt in Drain(includeStart, f[1..]).packets {
      WeightOfMember(Drain(includeStart, f[1..]).packets, pkt);
    }
  }
}
