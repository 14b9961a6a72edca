/**
 What the stream decoder computes, as functions on the pending bytes: one scan for the next frame, and a
 drain that scans until nothing more can be extracted.
 */
module Scanning {
  import opened Bytes
  import opened Frame

  /** `q[i..]` starts with the two start bytes. */
  predicate MarkerAt(p: bytes, i: nat)
  {
    i + 1 < |p| && p[i] == START && p[i + 1] == START
  }

  /** Position of the first marker, or -1. */
  function FirstMarker(p: bytes): (i: int)
    ensures -1 <= i < |p|
    ensures i >= 0 ==> MarkerAt(p, i)
    ensures forall j: nat :: MarkerAt(p, j) ==> 0 <= i <= j
  {
    if |p| < 2 then -1
    else if p[0] == START && p[1] == START then 0
    else
      var i := FirstMarker(p[1..]);
      assert forall j: nat :: MarkerAt(p, j) ==> j > 0 && MarkerAt(p[1..], j - 1);
      assert i >= 0 ==> MarkerAt(p, i + 1);
      if i < 0 then -1 else i + 1
  }

  /**
   What a candidate `q` (a suffix of the buffer that starts with a marker) turns out to be.
   Incomplete: the header, or the payload it announces, has not arrived.
   Overrun: header and payload have arrived but not the check character, which the decoder reads all the same.
   */
  datatype Verdict = Incomplete | Overrun | Bad | Good

  /** verifyBCC: the standard check, and if so configured the check that counts the start bytes. */
  predicate Accepts(includeStart: bool, header: bytes, data: bytes, bcc: byte)
    requires |header| == HEADER_SIZE
  {
    BCC(header[2..] + data) == bcc || (includeStart && BCC(header + data) == bcc)
  }

  function Judge(includeStart: bool, q: bytes): Verdict
  {
    if |q| < HEADER_SIZE || DataLen(q) > |q| - HEADER_SIZE then Incomplete
    else if DataLen(q) == |q| - HEADER_SIZE then Overrun
    else if Accepts(includeStart, q[..24], q[24..24 + DataLen(q)], q[24 + DataLen(q)]) then Good
    else Bad
  }

  /** Size of the complete candidate at the front of `q`. */
  function FrameSize(q: bytes): (n: nat)
    requires |q| >= HEADER_SIZE
    ensures n >= HEADER_SIZE + 1
  {
    HEADER_SIZE + DataLen(q) + 1
  }

  /**
   Result of one scan. NoMarker keeps the bytes the decoder throws away, Partial the bytes it keeps,
   Fault stands for the out-of-range read.
   */
  datatype ScanResult =
    | NoMarker(tail: bytes)
    | Partial(rest: bytes)
    | Fault
    | Found(pkt: Packet, rest: bytes)

  /** How a scan ends at a candidate that is not rejected. */
  function Conclude(includeStart: bool, q: bytes): ScanResult
  {
    match Judge(includeStart, q)
    case Incomplete => Partial(q)
    case Overrun => Fault
    case Good => Found(PacketOf(q), q[FrameSize(q)..])
    case Bad => NoMarker(q)
  }

  function Scan(includeStart: bool, p: bytes): ScanResult
    decreases |p|
  {
    var i := FirstMarker(p);
    if i < 0 then NoMarker(p)
    else
      var q := p[i..];
      if Judge(includeStart, q) == Bad then Scan(includeStart, q[2..]) else Conclude(includeStart, q)
  }

  /** What a scan of `p` does once it has found its first candidate `q`. */
  lemma ScanAtMarker(includeStart: bool, p: bytes, q: bytes)
    requires FirstMarker(p) >= 0 && q == p[FirstMarker(p)..]
    ensures MarkerAt(q, 0)
    ensures Scan(includeStart, p)
            == if Judge(includeStart, q) == Bad then Scan(includeStart, q[2..]) else Conclude(includeStart, q)
  {
  }

  /** Packets extracted until none is left, and the scan result that stopped it. */
  datatype DrainResult = DrainResult(packets: seq<Packet>, last: ScanResult)

  lemma {:induction false} ScanShrinks(includeStart: bool, p: bytes)
    ensures var r := Scan(includeStart, p); r.Found? ==> |r.rest| + HEADER_SIZE + 1 <= |p|
    decreases |p|
  {
    var i := FirstMarker(p);
    if i >= 0 && Judge(includeStart, p[i..]) == Bad {
      ScanShrinks(includeStart, p[i..][2..]);
    }
  }

  predicate Splits(p: bytes, skipped: bytes, frame: bytes, r: ScanResult)
  {
    match r
    case NoMarker(tail) => p == skipped + tail
    case Partial(rest) => p == skipped + rest && MarkerAt(rest, 0)
    case Fault => true
    case Found(pkt, rest) => p == skipped + frame + rest && IsFrame(frame, pkt)
  }

  lemma SplitAfter(p: bytes, i: nat, s: bytes, f: bytes, r: ScanResult)
    requires i <= |p| && Splits(p[i..], s, f, r)
    ensures Splits(p, p[..i] + s, f, r)
  {
    assert p == p[..i] + p[i..];
  }

  lemma GoodSplits(includeStart: bool, q: bytes)
    requires MarkerAt(q, 0) && Judge(includeStart, q) == Good
    ensures Splits(q, [], q[..FrameSize(q)], Conclude(includeStart, q))
  {
    GoodIsFrame(includeStart, q);
    assert q == [] + q[..FrameSize(q)] + q[FrameSize(q)..];
  }

  lemma ConcludeSplits(includeStart: bool, q: bytes) returns (frame: bytes)
    requires MarkerAt(q, 0) && Judge(includeStart, q) != Bad
    ensures Splits(q, [], frame, Conclude(includeStart, q))
  {
    frame := [];
    assert [] + q == q;
    if Judge(includeStart, q) == Good {
      GoodSplits(includeStart, q);
      frame := q[..FrameSize(q)];
    }
  }

  /** A scan splits its input into skipped bytes, at most one whole valid frame, and the bytes left. */
  lemma {:induction false} ScanSplits(includeStart: bool, p: bytes) returns (skipped: bytes, frame: bytes)
    ensures Splits(p, skipped, frame, Scan(includeStart, p))
    decreases |p|
  {
    skipped, frame := [], [];
    var i := FirstMarker(p);
    if i >= 0 {
      var q := p[i..];
      if Judge(includeStart, q) == Bad {
        var rest := p[i + 2..];
        assert q[2..] == rest;
        assert Scan(includeStart, p) == Scan(includeStart, rest);
        skipped, frame := ScanSplits(includeStart, rest);
        SplitAfter(p, i + 2, skipped, frame, Scan(includeStart, rest));
        skipped := p[..i + 2] + skipped;
      } else {
        frame := ConcludeSplits(includeStart, q);
        SplitAfter(p, i, [], frame, Conclude(includeStart, q));
        skipped := p[..i] + [];
      }
    }
  }

  /** Counting the start bytes in makes no difference to a candidate, because it starts with a marker. */
  lemma AcceptsEitherWay(includeStart: bool, header: bytes, data: bytes, bcc: byte)
    requires |header| == HEADER_SIZE && MarkerAt(header, 0)
    ensures Accepts(includeStart, header, data, bcc) == (BCC(header[2..] + data) == bcc)
  {
    assert header + data == [START, START] + (header[2..] + data);
    BCCIgnoresMarker(header[2..] + data);
  }

  lemma StandardCheckIsFrame(q: bytes)
    requires MarkerAt(q, 0) && |q| >= HEADER_SIZE && |q| >= FrameSize(q)
    ensures BCC(q[..24][2..] + q[24..24 + DataLen(q)]) == q[24 + DataLen(q)]
            <==> IsFrame(q[..FrameSize(q)], PacketOf(q))
  {
    var n := DataLen(q);
    SubSlice(q, 0, 24, 2, 24);
    SubSlice(q, 0, 25 + n, 2, 24 + n);
    SubSlice(q, 0, 25 + n, 4, 21);
    SubSlice(q, 0, 25 + n, 24, 24 + n);
    JoinSlices(q, 2, 24, 24 + n);
    assert q[..24][2..24] == q[..24][2..];
  }

  /** A candidate is accepted, in either mode, exactly when it begins with a valid frame. */
  lemma GoodIsFrame(includeStart: bool, q: bytes)
    requires MarkerAt(q, 0)
    ensures Judge(includeStart, q) == Good <==>
            |q| >= HEADER_SIZE && |q| >= FrameSize(q) && IsFrame(q[..FrameSize(q)], PacketOf(q))
  {
    if |q| >= HEADER_SIZE && |q| >= FrameSize(q) {
      StandardCheckIsFrame(q);
      AcceptsEitherWay(includeStart, q[..24], q[24..24 + DataLen(q)], q[24 + DataLen(q)]);
    }
  }

  lemma JudgeEitherWay(includeStart: bool, q: bytes)
    requires MarkerAt(q, 0)
    ensures Judge(includeStart, q) == Judge(false, q)
  {
    GoodIsFrame(includeStart, q);
    GoodIsFrame(false, q);
  }

  function Drain(includeStart: bool, p: bytes): DrainResult
    decreases |p|
  {
    var r := Scan(includeStart, p);
    ScanShrinks(includeStart, p);
    if r.Found? then
      var d := Drain(includeStart, r.rest);
      DrainResult([r.pkt] + d.packets, d.last)
    else DrainResult([], r)
  }

  /** What the caller of the decoder observes: the packets, and the bytes still held unless it panicked. */
  datatype End = Waiting(pending: bytes) | Crashed

  datatype Outcome = Outcome(packets: seq<Packet>, end: End)

  function Hold(r: ScanResult): End
  {
    match r
    case NoMarker(_) => Waiting([])
    case Partial(rest) => Waiting(rest)
    case Found(_, rest) => Waiting(rest)
    case Fault => Crashed
  }

  function Observe(d: DrainResult): Outcome
  {
    Outcome(d.packets, Hold(d.last))
  }
}
