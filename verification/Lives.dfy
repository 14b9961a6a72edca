/**
 A connection from its first byte to its last read: what it makes of the chunks it is fed, and when the way the
 stream is cut into reads matters.
 */
module Lives {
  import opened Bytes
  import opened Frame
  import opened Scanning
  import opened Stream
  import opened StreamLaws
  import opened Cuts
  import opened Crypto
  import opened Connections
  import Session

  type Conn = Session.Conn
  type Life = Session.Life
  type Handler = Session.Handler
  type Application = Session.Application

  const BIRTH := Session.Life(Session.FRESH, 0, Waiting([]))

  /** A new connection's life. */
  ghost function Live(h: Handler, includeStart: bool, chunks: seq<bytes>): (l: Life)
  {
    Session.Reads(h, includeStart, BIRTH, chunks)
  }

  /** A new connection after these packets. */
  ghost function Result(h: Handler, pkts: seq<Packet>): (s: Conn)
  {
    Session.HandledAll(h, 0, Session.FRESH, pkts)
  }

  /** The life that handles all packets of a run of the decoder. */
  ghost function LifeOf(h: Handler, o: Outcome): (l: Life)
  {
    Session.Life(Result(h, o.packets), |o.packets|, o.end)
  }

  // ---- Packets -----------------------------------------------------------------------------------------

  lemma {:induction false} HandledConcat(h: Handler, n: nat, s: Conn, a: seq<Packet>, b: seq<Packet>)
    ensures Session.HandledAll(h, n, s, a + b)
            == Session.HandledAll(h, n + |a|, Session.HandledAll(h, n, s, a), b)
    decreases |a|
  {
    if a == [] {
      assert a + b == b;
    } else {
      assert (a + b)[1..] == a[1..] + b;
      HandledConcat(h, n + 1, h(n, s, a[0]), a[1..], b);
    }
  }

  lemma ResultConcat(h: Handler, a: seq<Packet>, b: seq<Packet>)
    ensures Result(h, a + b) == Session.HandledAll(h, |a|, Result(h, a), b)
  {
    HandledConcat(h, 0, Session.FRESH, a, b);
  }

  lemma {:induction false} NeverReopened(h: Handler, n: nat, s: Conn, pkts: seq<Packet>)
    requires !s.socketOpen
    ensures !Session.HandledAll(h, n, s, pkts).socketOpen
    decreases |pkts|
  {
    if pkts != [] {
      NeverReopened(h, n + 1, h(n, s, pkts[0]), pkts[1..]);
    }
  }

  lemma OpenBefore(h: Handler, a: seq<Packet>, b: seq<Packet>)
    requires a <= b && Result(h, b).socketOpen
    ensures Result(h, a).socketOpen
  {
    var later := b[|a|..];
    assert b == a + later;
    ResultConcat(h, a, later);
    if !Result(h, a).socketOpen {
      NeverReopened(h, |a|, Result(h, a), later);
    }
  }

  // ---- Where a life stops ------------------------------------------------------------------------------

  lemma ReadIsResume(h: Handler, includeStart: bool, o: Outcome, chunk: bytes)
    requires LifeOf(h, o).conn.socketOpen
    ensures Session.Read(h, includeStart, LifeOf(h, o), chunk)
            == LifeOf(h, Resume(includeStart, o, chunk))
  {
    if o.end.Waiting? {
      var d := Observe(Drain(includeStart, o.end.pending + chunk));
      Session.HandlingIsDrain(h, includeStart, |o.packets|, Result(h, o.packets), o.end.pending + chunk);
      ResultConcat(h, o.packets, d.packets);
      assert Resume(includeStart, o, chunk) == Outcome(o.packets + d.packets, d.end);
    }
  }

  /** The packets of the first `j` chunks leave the socket open. */
  ghost predicate OpenAfter(h: Handler, includeStart: bool, chunks: seq<bytes>, j: nat)
    requires j <= |chunks|
  {
    Result(h, Run(includeStart, chunks[..j]).packets).socketOpen
  }

  /** The first `m` chunks are read: the socket is open before each, and closed after the last if any is left. */
  ghost predicate Stops(h: Handler, includeStart: bool, chunks: seq<bytes>, m: nat)
  {
    && m <= |chunks|
    && (forall j: nat :: j < m ==> OpenAfter(h, includeStart, chunks, j))
    && (m < |chunks| ==> !OpenAfter(h, includeStart, chunks, m))
  }

  lemma OpenAfterPrefix(h: Handler, includeStart: bool, chunks: seq<bytes>, n: nat, j: nat)
    requires j <= n <= |chunks|
    ensures OpenAfter(h, includeStart, chunks[..n], j) <==> OpenAfter(h, includeStart, chunks, j)
  {
    assert chunks[..n][..j] == chunks[..j];
  }

  lemma StopsLater(h: Handler, includeStart: bool, chunks: seq<bytes>, m: nat)
    requires chunks != [] && Stops(h, includeStart, chunks[..|chunks| - 1], m)
    ensures Stops(h, includeStart, chunks, if OpenAfter(h, includeStart, chunks, m) then |chunks| else m)
    ensures OpenAfter(h, includeStart, chunks, m) ==> m == |chunks| - 1
  {
    var n := |chunks| - 1;
    forall j: nat | j <= n
      ensures OpenAfter(h, includeStart, chunks[..n], j) <==> OpenAfter(h, includeStart, chunks, j)
    {
      OpenAfterPrefix(h, includeStart, chunks, n, j);
    }
  }

  /** A life handles exactly the packets of the chunks read until the socket is closed. */
  lemma {:induction false} LifeStops(h: Handler, includeStart: bool, chunks: seq<bytes>)
    returns (m: nat)
    ensures Stops(h, includeStart, chunks, m)
    ensures Live(h, includeStart, chunks) == LifeOf(h, Run(includeStart, chunks[..m]))
    decreases |chunks|
  {
    m := 0;
    if chunks != [] {
      var n := |chunks| - 1;
      m := LifeStops(h, includeStart, chunks[..n]);
      assert chunks[..n][..m] == chunks[..m];
      StopsLater(h, includeStart, chunks, m);
      var o := Run(includeStart, chunks[..m]);
      if LifeOf(h, o).conn.socketOpen {
        ReadIsResume(h, includeStart, o, chunks[n]);
        m := n + 1;
        assert chunks[..m] == chunks;
      }
    }
  }

  lemma {:induction false} RunGrows(includeStart: bool, chunks: seq<bytes>, m: nat)
    requires m <= |chunks|
    ensures Run(includeStart, chunks[..m]).packets <= Run(includeStart, chunks).packets
    decreases |chunks| - m
  {
    if m == |chunks| {
      assert chunks[..m] == chunks;
    } else {
      RunSnoc(includeStart, chunks, m);
      RunGrows(includeStart, chunks, m + 1);
    }
  }

  // ---- When cuts do not matter -------------------------------------------------------------------------

  /** The socket is open when packet `k` is handled. */
  ghost predicate OpenAt(h: Handler, pkts: seq<Packet>, k: nat)
    requires k < |pkts|
  {
    Result(h, pkts[..k]).socketOpen
  }

  /** Only the last packet, if any, closes the connection. */
  ghost predicate OpenToTheLast(h: Handler, pkts: seq<Packet>)
  {
    forall k: nat :: k < |pkts| ==> OpenAt(h, pkts, k)
  }

  lemma ClosedOnlyAtEnd(h: Handler, some: seq<Packet>, all: seq<Packet>)
    requires some <= all && OpenToTheLast(h, all) && !Result(h, some).socketOpen
    ensures some == all
  {
    assert some == all[..|some|];
    assert |some| < |all| ==> OpenAt(h, all, |some|);
  }

  /** If no packet but the last closes the connection, all packets are handled however the bytes are cut. */
  lemma AllPacketsHandled(h: Handler, includeStart: bool, chunks: seq<bytes>)
    requires OpenToTheLast(h, Run(includeStart, chunks).packets)
    ensures var o, l := Run(includeStart, chunks), Live(h, includeStart, chunks);
            && l.conn == Result(h, o.packets) && l.handled == |o.packets|
            && (l.conn.socketOpen ==> l == LifeOf(h, o))
  {
    var m := LifeStops(h, includeStart, chunks);
    if m == |chunks| {
      assert chunks[..m] == chunks;
    } else {
      RunGrows(includeStart, chunks, m);
      ClosedOnlyAtEnd(h, Run(includeStart, chunks[..m]).packets, Run(includeStart, chunks).packets);
    }
  }

  /**
   Whatever the application answers to each packet, by its number and the state of the connection: if no packet of
   the stream but the last closes the connection, what becomes of the connection does not depend on how its bytes were
   safely cut into reads; and if none closes it, neither does what the decoder holds.
   */
  lemma LifeIgnoresCuts(h: Handler, includeStart: bool,
                        chunks: seq<bytes>, others: seq<bytes>)
    requires Flat(chunks) == Flat(others)
    requires SafelyCut(includeStart, chunks) && SafelyCut(includeStart, others)
    requires OpenToTheLast(h, Drain(includeStart, Flat(chunks)).packets)
    ensures var l, k := Live(h, includeStart, chunks), Live(h, includeStart, others);
            && l.conn == k.conn == Result(h, Drain(includeStart, Flat(chunks)).packets)
            && l.handled == k.handled == |Drain(includeStart, Flat(chunks)).packets|
            && (l.conn.socketOpen ==> l == k)
  {
    ChunkedEqualsWhole(includeStart, chunks);
    ChunkedEqualsWhole(includeStart, others);
    AllPacketsHandled(h, includeStart, chunks);
    AllPacketsHandled(h, includeStart, others);
  }

  // ---- Frames ------------------------------------------------------------------------------------------

  /** A chunk that is not empty is only there to be read while the socket is open. */
  ghost predicate OpenWhileMoreComes(h: Handler, includeStart: bool, chunks: seq<bytes>)
  {
    forall m: nat :: m <= |chunks| && Flat(chunks[m..]) != [] ==> Live(h, includeStart, chunks[..m]).conn.socketOpen
  }

  lemma {:induction false} RunFits(includeStart: bool, chunks: seq<bytes>)
    ensures Weight(Run(includeStart, chunks).packets) <= |Flat(chunks)|
    ensures var o := Run(includeStart, chunks);
            o.end.Waiting? ==> Weight(o.packets) + |o.end.pending| <= |Flat(chunks)|
    decreases |chunks|
  {
    if chunks != [] {
      var n := |chunks| - 1;
      var before := Run(includeStart, chunks[..n]);
      RunFits(includeStart, chunks[..n]);
      FlatCut(chunks, n);
      assert chunks[..n + 1] == chunks;
      if before.end.Waiting? {
        var p := before.end.pending + chunks[n];
        DrainFits(includeStart, p);
        WeightConcat(before.packets, Drain(includeStart, p).packets);
      }
    }
  }

  lemma {:induction false} FlatSplit(chunks: seq<bytes>, m: nat)
    requires m <= |chunks|
    ensures Flat(chunks) == Flat(chunks[..m]) + Flat(chunks[m..])
    decreases |chunks| - m
  {
    if m == |chunks| {
      assert chunks[..m] == chunks && chunks[m..] == [] && Flat(chunks) + [] == Flat(chunks);
    } else {
      FlatSplit(chunks, m + 1);
      FlatCut(chunks, m);
      Assoc(Flat(chunks[..m]), chunks[m], Flat(chunks[m + 1..]));
    }
  }

  /** Fewer bytes than the frames have do not yield all their packets. */
  lemma TooFewBytes(includeStart: bool, pkts: seq<Packet>, chunks: seq<bytes>, m: nat)
    requires AllCarriable(pkts) && Flat(chunks) == FrameStream(pkts) && GoodCuts(pkts, chunks)
    requires m <= |chunks| && Flat(chunks[m..]) != []
    ensures |Run(includeStart, chunks[..m]).packets| < |pkts|
  {
    ChunkedRoundTripIff(includeStart, pkts, chunks);
    RunGrows(includeStart, chunks, m);
    RunFits(includeStart, chunks[..m]);
    FlatSplit(chunks, m);
    WeightOfStream(pkts);
    var some := Run(includeStart, chunks[..m]).packets;
    assert |some| == |pkts| ==> some == pkts;
  }

  /** Once every byte has been read, the frames are all there. */
  lemma EnoughBytes(includeStart: bool, pkts: seq<Packet>, chunks: seq<bytes>, m: nat)
    requires AllCarriable(pkts) && Flat(chunks) == FrameStream(pkts) && GoodCuts(pkts, chunks)
    requires m <= |chunks| && Flat(chunks[m..]) == []
    ensures Run(includeStart, chunks[..m]) == Outcome(pkts, Waiting([]))
  {
    FlatSplit(chunks, m);
    var some := chunks[..m];
    assert Flat(some) == FrameStream(pkts);
    forall j: nat | j < m
      ensures GoodCut(pkts, |Flat(some[..j])|)
    {
      assert some[..j] == chunks[..j];
    }
    ChunkedRoundTripIff(includeStart, pkts, some);
  }

  lemma ClosedByPackets(h: Handler, includeStart: bool, chunks: seq<bytes>)
    ensures Live(h, includeStart, chunks).conn.socketOpen
            ==> Result(h, Run(includeStart, chunks).packets).socketOpen
  {
    var m := LifeStops(h, includeStart, chunks);
    if m == |chunks| {
      assert chunks[..m] == chunks;
    }
  }

  lemma LaterIsMore(chunks: seq<bytes>, j: nat, m: nat)
    requires j <= m <= |chunks| && Flat(chunks[m..]) != []
    ensures Flat(chunks[j..]) != []
  {
    FlatSplit(chunks[j..], m - j);
    assert chunks[j..][m - j..] == chunks[m..];
  }

  /** A life that is over before the last byte has not seen all packets. */
  lemma OverTooEarly(h: Handler, includeStart: bool, pkts: seq<Packet>, chunks: seq<bytes>, m: nat)
    requires AllCarriable(pkts) && Flat(chunks) == FrameStream(pkts) && GoodCuts(pkts, chunks)
    requires m <= |chunks| && Flat(chunks[m..]) != [] && !Live(h, includeStart, chunks[..m]).conn.socketOpen
    ensures Live(h, includeStart, chunks).handled < |pkts|
  {
    Session.OverForGood(h, includeStart, BIRTH, chunks, m);
    var j := LifeStops(h, includeStart, chunks[..m]);
    assert chunks[..m][..j] == chunks[..j];
    LaterIsMore(chunks, j, m);
    TooFewBytes(includeStart, pkts, chunks, j);
  }

  /**
   Frames that arrive in chunks starting at good positions are all handled, one by one and leaving nothing pending,
   exactly when the socket is still open whenever more bytes come.
   */
  lemma FramesAreHandled(h: Handler, includeStart: bool, pkts: seq<Packet>, chunks: seq<bytes>)
    requires AllCarriable(pkts) && Flat(chunks) == FrameStream(pkts) && GoodCuts(pkts, chunks)
    ensures Live(h, includeStart, chunks) == LifeOf(h, Outcome(pkts, Waiting([])))
            <==> OpenWhileMoreComes(h, includeStart, chunks)
  {
    if OpenWhileMoreComes(h, includeStart, chunks) {
      var k := LifeStops(h, includeStart, chunks);
      ClosedByPackets(h, includeStart, chunks[..k]);
      assert Flat(chunks[k..]) == [];
      EnoughBytes(includeStart, pkts, chunks, k);
    } else {
      var m: nat :| m <= |chunks| && Flat(chunks[m..]) != [] && !Live(h, includeStart, chunks[..m]).conn.socketOpen;
      OverTooEarly(h, includeStart, pkts, chunks, m);
    }
  }

  // ---- Every way of cutting ----------------------------------------------------------------------------

  /** However the frames are cut at good positions, they are all handled. */
  ghost predicate HandledHoweverCut(h: Handler, includeStart: bool, pkts: seq<Packet>)
  {
    forall chunks :: Flat(chunks) == FrameStream(pkts) && GoodCuts(pkts, chunks)
      ==> Live(h, includeStart, chunks) == LifeOf(h, Outcome(pkts, Waiting([])))
  }

  lemma OpenWhileNotLast(h: Handler, includeStart: bool, pkts: seq<Packet>, chunks: seq<bytes>)
    requires AllCarriable(pkts) && Flat(chunks) == FrameStream(pkts) && GoodCuts(pkts, chunks)
    requires OpenToTheLast(h, pkts)
    ensures OpenWhileMoreComes(h, includeStart, chunks)
  {
    forall m: nat | m <= |chunks| && Flat(chunks[m..]) != []
      ensures Live(h, includeStart, chunks[..m]).conn.socketOpen
    {
      var j := LifeStops(h, includeStart, chunks[..m]);
      assert chunks[..m][..j] == chunks[..j];
      LaterIsMore(chunks, j, m);
      TooFewBytes(includeStart, pkts, chunks, j);
      RunGrows(includeStart, chunks, j);
      ChunkedRoundTripIff(includeStart, pkts, chunks);
      var some := Run(includeStart, chunks[..j]).packets;
      assert some == pkts[..|some|] && OpenAt(h, pkts, |some|);
    }
  }

  lemma {:induction false} FrameStreamSnoc(pkts: seq<Packet>, pkt: Packet)
    ensures FrameStream(pkts + [pkt]) == FrameStream(pkts) + FrameFor(pkt)
    decreases |pkts|
  {
    if pkts == [] {
      assert [pkt][1..] == [];
    } else {
      FrameStreamSnoc(pkts[1..], pkt);
      assert (pkts + [pkt])[1..] == pkts[1..] + [pkt];
      Assoc(FrameFor(pkts[0]), FrameStream(pkts[1..]), FrameFor(pkt));
    }
  }

  lemma {:induction false} BoundaryIsGood(pkts: seq<Packet>, pkt: Packet)
    requires AllCarriable(pkts + [pkt])
    ensures GoodCut(pkts + [pkt], |FrameStream(pkts)|)
    decreases |pkts|
  {
    var all := pkts + [pkt];
    if pkts != [] {
      assert Carriable(all[0]) && all[0] == pkts[0] && all[1..] == pkts[1..] + [pkt];
      BoundaryIsGood(pkts[1..], pkt);
    }
  }

  lemma TwoParts(a: bytes, b: bytes)
    ensures var cs := [a, b]; Flat(cs) == a + b && Flat(cs[..0]) == [] && Flat(cs[..1]) == a && Flat(cs[1..]) == b
  {
    var cs := [a, b];
    FlatCut(cs, 0);
    FlatCut(cs, 1);
    assert cs[..2] == cs && cs[2..] == [] && [] + a == a && b + [] == b;
  }

  /** All packets but the last in one read, the last in another. */
  lemma LastAlone(h: Handler, includeStart: bool, pkts: seq<Packet>, pkt: Packet)
    requires AllCarriable(pkts + [pkt])
    ensures var cs := [FrameStream(pkts), FrameFor(pkt)];
            && Flat(cs) == FrameStream(pkts + [pkt]) && GoodCuts(pkts + [pkt], cs)
            && Flat(cs[1..]) == FrameFor(pkt)
            && Live(h, includeStart, cs[..1]) == LifeOf(h, Outcome(pkts, Waiting([])))
  {
    var cs := [FrameStream(pkts), FrameFor(pkt)];
    TwoParts(cs[0], cs[1]);
    FrameStreamSnoc(pkts, pkt);
    BoundaryIsGood(pkts, pkt);
    forall j: nat | j < |cs|
      ensures GoodCut(pkts + [pkt], |Flat(cs[..j])|)
    {
      assert j == 0 || j == 1;
    }
    assert AllCarriable(pkts) by {
      assert forall i :: 0 <= i < |pkts| ==> (pkts + [pkt])[i] == pkts[i];
    }
    FramesRoundTrip(includeStart, pkts);
    FirstRead(h, includeStart, cs);
  }

  lemma FirstRead(h: Handler, includeStart: bool, chunks: seq<bytes>)
    requires chunks != []
    ensures Live(h, includeStart, chunks[..1]) == LifeOf(h, Observe(Drain(includeStart, chunks[0])))
  {
    Session.ReadsSnoc(h, includeStart, BIRTH, chunks, 0);
    Session.HandlingIsDrain(h, includeStart, 0, Session.FRESH, chunks[0]);
    assert chunks[..0] == [] && [] + chunks[0] == chunks[0];
  }

  /** A stream of frames is handled in full, however it is cut, exactly when no packet but the last closes it. */
  lemma HoweverCutIff(h: Handler, includeStart: bool, pkts: seq<Packet>)
    requires AllCarriable(pkts)
    ensures HandledHoweverCut(h, includeStart, pkts) <==> OpenToTheLast(h, pkts)
  {
    if OpenToTheLast(h, pkts) {
      forall chunks | Flat(chunks) == FrameStream(pkts) && GoodCuts(pkts, chunks)
        ensures Live(h, includeStart, chunks) == LifeOf(h, Outcome(pkts, Waiting([])))
      {
        OpenWhileNotLast(h, includeStart, pkts, chunks);
        FramesAreHandled(h, includeStart, pkts, chunks);
      }
    } else {
      var before, last := pkts[..|pkts| - 1], pkts[|pkts| - 1];
      assert pkts == before + [last];
      var k: nat :| k < |pkts| && !OpenAt(h, pkts, k);
      if Result(h, before).socketOpen {
        OpenBefore(h, pkts[..k], before);
      }
      var cs := [FrameStream(before), FrameFor(last)];
      LastAlone(h, includeStart, before, last);
      OverTooEarly(h, includeStart, pkts, cs, 1);
    }
  }

  lemma CutsAreSafe(includeStart: bool, pkts: seq<Packet>, chunks: seq<bytes>)
    requires AllCarriable(pkts) && Flat(chunks) == FrameStream(pkts)
    requires GoodCuts(pkts, chunks)
    ensures SafelyCut(includeStart, chunks)
  {
    GoodIsSafe(includeStart, pkts, chunks);
  }

  lemma OneChunk(a: bytes)
    ensures Flat([a]) == a && Flat([a][..0]) == []
  {
    assert [a][1..] == [] && [a][..0] == [] && a + [] == a;
  }

  lemma OneRead(h: Handler, includeStart: bool, pkts: seq<Packet>)
    requires AllCarriable(pkts)
    ensures var cs := [FrameStream(pkts)];
            && Flat(cs) == FrameStream(pkts) && SafelyCut(includeStart, cs)
            && Live(h, includeStart, cs) == LifeOf(h, Outcome(pkts, Waiting([])))
  {
    var cs := [FrameStream(pkts)];
    OneChunk(FrameStream(pkts));
    assert GoodCuts(pkts, cs);
    CutsAreSafe(includeStart, pkts, cs);
    FramesRoundTrip(includeStart, pkts);
    FirstRead(h, includeStart, cs);
    assert cs[..1] == cs;
  }

  lemma TwoHandled(h: Handler, first: Packet, next: Packet)
    ensures var s := h(0, Session.FRESH, first);
            Result(h, [first]) == s && Result(h, [first, next]) == h(1, s, next)
  {
    var s := h(0, Session.FRESH, first);
    assert [first][1..] == [] && [first, next][1..] == [next] && [next][1..] == [];
    assert Session.HandledAll(h, 1, s, []) == s && Session.HandledAll(h, 1, s, [next]) == h(1, s, next);
  }

  /** A packet that closes the connection, and another: in one read both are handled, in two only the first. */
  lemma ClosingEndsReading(h: Handler, includeStart: bool, first: Packet, next: Packet)
    requires AllCarriable([first, next]) && !h(0, Session.FRESH, first).socketOpen
    ensures var one, two := [FrameStream([first, next])], [FrameStream([first]), FrameFor(next)];
            var s := h(0, Session.FRESH, first);
            && Flat(one) == Flat(two) && SafelyCut(includeStart, one) && SafelyCut(includeStart, two)
            && Live(h, includeStart, one) == Session.Life(h(1, s, next), 2, Waiting([]))
            && Live(h, includeStart, two) == Session.Life(s, 1, Waiting([]))
  {
    var pkts, two := [first, next], [FrameStream([first]), FrameFor(next)];
    assert [first] + [next] == pkts;
    TwoHandled(h, first, next);
    OneRead(h, includeStart, pkts);
    LastAlone(h, includeStart, [first], next);
    Session.OverForGood(h, includeStart, BIRTH, two, 1);
    CutsAreSafe(includeStart, pkts, two);
  }

  /** A login that is turned away is such a packet. */
  lemma RefusedLoginEndsReading(c: BlockCipher, app: Application, includeStart: bool, refused: Packet, next: Packet)
    requires IsCipher(c) && AllCarriable([refused, next])
    requires refused.command == Session.CMD_LOGIN && !app(0, Session.FRESH, refused).admitted
    ensures var h, closed := Session.PacketHandler(c, app), Session.CloseConn(Session.FRESH);
            && Live(h, includeStart, [FrameStream([refused, next])])
               == Session.Life(Session.Handled(c, closed, next, app(1, closed, next)), 2, Waiting([]))
            && Live(h, includeStart, [FrameStream([refused]), FrameFor(next)])
               == Session.Life(closed, 1, Waiting([]))
  {
    ClosingEndsReading(Session.PacketHandler(c, app), includeStart, refused, next);
  }
}
