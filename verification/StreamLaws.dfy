/** Which bytes become packets: candidate choice, panics, soundness, resynchronisation, round trip, error detection. */
module StreamLaws {
  import opened Bytes
  import opened Frame
  import opened Scanning
  import opened Stream

  // ---- Candidate choice --------------------------------------------------------------------------------

  /** Number of consecutive start bytes that end just before `i`. */
  function StartsBefore(p: bytes, i: nat): (n: nat)
    requires i <= |p|
  {
    if i > 0 && p[i - 1] == START then StartsBefore(p, i - 1) + 1 else 0
  }

  /**
   The markers the decoder can resume at. Since it skips both bytes of a rejected marker, in a run of start
   bytes only every second marker is one.
   */
  predicate Candidate(p: bytes, i: nat)
  {
    MarkerAt(p, i) && StartsBefore(p, i) % 2 == 0
  }

  /** `i` is the first candidate that is not a complete frame with a wrong check character. */
  ghost predicate FirstLive(includeStart: bool, p: bytes, i: nat)
  {
    && Candidate(p, i) && Judge(includeStart, p[i..]) != Bad
    && forall j: nat :: j < i && Candidate(p, j) ==> Judge(includeStart, p[j..]) == Bad
  }

  ghost predicate AllRejected(includeStart: bool, p: bytes)
  {
    forall j: nat :: Candidate(p, j) ==> Judge(includeStart, p[j..]) == Bad
  }

  lemma FirstMarkerIsCandidate(p: bytes)
    requires FirstMarker(p) >= 0
    ensures StartsBefore(p, FirstMarker(p)) == 0
  {
    var f := FirstMarker(p);
    if f > 0 && p[f - 1] == START {
      assert MarkerAt(p, f - 1);
    }
  }

  lemma {:induction false} StartsBeforeShift(p: bytes, f: nat, j: nat)
    requires f + 2 + j <= |p| && MarkerAt(p, f) && StartsBefore(p, f) == 0
    ensures StartsBefore(p, f + 2 + j) % 2 == StartsBefore(p[f + 2..], j) % 2
    ensures StartsBefore(p, f + 1) == 1
  {
    if j == 0 {
      assert StartsBefore(p, f + 2) == StartsBefore(p, f + 1) + 1;
    } else {
      StartsBeforeShift(p, f, j - 1);
      assert p[f + 2..][j - 1] == p[f + 2 + j - 1];
    }
  }

  lemma CandidateShift(p: bytes, f: nat, j: nat)
    requires MarkerAt(p, f) && StartsBefore(p, f) == 0
    ensures Candidate(p[f + 2..], j) == Candidate(p, f + 2 + j)
    ensures !Candidate(p, f + 1)
  {
    if f + 2 + j <= |p| {
      StartsBeforeShift(p, f, j);
      assert MarkerAt(p[f + 2..], j) == MarkerAt(p, f + 2 + j);
    }
    StartsBeforeShift(p, f, 0);
  }

  /**
   The scan in terms of the candidates alone: it rests at the first one that is not rejected, and drops
   everything exactly when all are rejected.
   */
  lemma {:induction false} ScanPicksFirstLive(includeStart: bool, p: bytes)
    ensures forall i: nat :: FirstLive(includeStart, p, i) ==> Scan(includeStart, p) == Conclude(includeStart, p[i..])
    ensures AllRejected(includeStart, p) <==> Scan(includeStart, p).NoMarker?
    decreases |p|
  {
    var f := FirstMarker(p);
    if f >= 0 {
      FirstMarkerIsCandidate(p);
      assert Candidate(p, f);
      if Judge(includeStart, p[f..]) == Bad {
        var q := p[f + 2..];
        assert p[f..][2..] == q;
        ScanPicksFirstLive(includeStart, q);
        AllRejectedShift(includeStart, p, f);
        forall i: nat | FirstLive(includeStart, p, i)
          ensures Scan(includeStart, p) == Conclude(includeStart, p[i..])
        {
          FirstLiveShift(includeStart, p, f, i);
        }
      } else {
        forall i: nat | FirstLive(includeStart, p, i)
          ensures i == f
        {
        }
      }
    }
  }

  /** The candidates of `p` beyond its first, and those of what the decoder goes on with. */
  lemma CandidateBeyond(p: bytes, f: nat, j: nat)
    requires FirstMarker(p) == f && StartsBefore(p, f) == 0 && Candidate(p, j) && j != f
    ensures j >= f + 2 && Candidate(p[f + 2..], j - f - 2) && p[f + 2..][j - f - 2..] == p[j..]
  {
    CandidateShift(p, f, 0);
    CandidateShift(p, f, j - f - 2);
  }

  lemma CandidateBack(p: bytes, f: nat, k: nat)
    requires FirstMarker(p) == f && StartsBefore(p, f) == 0 && Candidate(p[f + 2..], k)
    ensures Candidate(p, f + 2 + k) && p[f + 2..][k..] == p[f + 2 + k..]
  {
    CandidateShift(p, f, k);
  }

  lemma FirstLiveShift(includeStart: bool, p: bytes, f: nat, i: nat)
    requires FirstMarker(p) == f && StartsBefore(p, f) == 0 && Judge(includeStart, p[f..]) == Bad
    requires FirstLive(includeStart, p, i)
    ensures i >= f + 2 && p[i..] == p[f + 2..][i - f - 2..] && FirstLive(includeStart, p[f + 2..], i - f - 2)
  {
    CandidateBeyond(p, f, i);
    var q := p[f + 2..];
    forall k: nat | k < i - f - 2 && Candidate(q, k)
      ensures Judge(includeStart, q[k..]) == Bad
    {
      CandidateBack(p, f, k);
    }
  }

  lemma AllRejectedShift(includeStart: bool, p: bytes, f: nat)
    requires FirstMarker(p) == f && StartsBefore(p, f) == 0 && Judge(includeStart, p[f..]) == Bad
    ensures AllRejected(includeStart, p) <==> AllRejected(includeStart, p[f + 2..])
  {
    var q := p[f + 2..];
    if AllRejected(includeStart, p) {
      forall k: nat | Candidate(q, k)
        ensures Judge(includeStart, q[k..]) == Bad
      {
        CandidateBack(p, f, k);
      }
    }
    if AllRejected(includeStart, q) {
      forall j: nat | Candidate(p, j)
        ensures Judge(includeStart, p[j..]) == Bad
      {
        if j != f {
          CandidateBeyond(p, f, j);
        }
      }
    }
  }

  lemma {:induction false} FirstLiveExists(includeStart: bool, p: bytes, j: nat) returns (i: nat)
    requires Candidate(p, j) && Judge(includeStart, p[j..]) != Bad
    ensures FirstLive(includeStart, p, i)
    decreases j
  {
    i := j;
    if k: nat :| k < j && Candidate(p, k) && Judge(includeStart, p[k..]) != Bad {
      i := FirstLiveExists(includeStart, p, k);
    }
  }

  /** Header and payload are there, and nothing else: what is left after the header is what the header announces. */
  predicate OneByteShort(q: bytes)
  {
    |q| >= HEADER_SIZE && DataLen(q) == |q| - HEADER_SIZE
  }

  /** The first candidate that is not rejected lacks just its check character. */
  ghost predicate RestsOneByteShort(includeStart: bool, p: bytes)
  {
    exists i: nat :: FirstLive(includeStart, p, i) && OneByteShort(p[i..])
  }

  /** Decoding panics exactly when the first live candidate announces exactly the bytes left after its header. */
  lemma FaultIff(includeStart: bool, p: bytes)
    ensures Scan(includeStart, p).Fault? <==> RestsOneByteShort(includeStart, p)
  {
    ScanPicksFirstLive(includeStart, p);
    if Scan(includeStart, p).Fault? {
      var j: nat :| Candidate(p, j) && Judge(includeStart, p[j..]) != Bad;
      var i := FirstLiveExists(includeStart, p, j);
      assert OneByteShort(p[i..]);
    }
  }

  // ---- Soundness over every run ------------------------------------------------------------------------

  /** What a user of the decoder can do. */
  datatype Op = FeedOp(chunk: bytes) | DecodeOp

  /** All bytes fed, the packets returned, and the condition of the decoder. */
  datatype History = History(fed: bytes, out: seq<Packet>, end: End)

  function Exec(includeStart: bool, ops: seq<Op>): History
  {
    if ops == [] then History([], [], Waiting([]))
    else Step(includeStart, Exec(includeStart, ops[..|ops| - 1]), ops[|ops| - 1])
  }

  function Step(includeStart: bool, h: History, op: Op): History
  {
    if h.end.Crashed? then h
    else
      match op
      case FeedOp(chunk) => History(h.fed + chunk, h.out, Waiting(h.end.pending + chunk))
      case DecodeOp =>
        var r := Scan(includeStart, h.end.pending);
        History(h.fed, if r.Found? then h.out + [r.pkt] else h.out, Hold(r))
  }

  /** The frames of `out` lie in `fed`, one after another, starting at `at`, and end no later than `limit`. */
  predicate Located(fed: bytes, out: seq<Packet>, at: seq<nat>, limit: nat)
  {
    && |at| == |out| && limit <= |fed|
    && (out != [] ==>
          var n := |out| - 1;
          var end := at[n] + 25 + |out[n].data|;
          && end <= limit && IsFrame(fed[at[n]..end], out[n])
          && Located(fed, out[..n], at[..n], at[n]))
  }

  lemma {:induction false} LocatedGrows(fed: bytes, more: bytes, out: seq<Packet>, at: seq<nat>, limit: nat)
    requires Located(fed, out, at, limit)
    ensures Located(fed + more, out, at, limit)
  {
    if out != [] {
      var n := |out| - 1;
      var end := at[n] + 25 + |out[n].data|;
      assert (fed + more)[at[n]..end] == fed[at[n]..end];
      LocatedGrows(fed, more, out[..n], at[..n], at[n]);
    }
  }

  lemma LocatedSnoc(fed: bytes, out: seq<Packet>, at: seq<nat>, limit: nat, pkt: Packet, a: nat, b: nat)
    requires Located(fed, out, at, limit) && limit <= a <= b <= |fed|
    requires b == a + 25 + |pkt.data| && IsFrame(fed[a..b], pkt)
    ensures Located(fed, out + [pkt], at + [a], b)
  {
    assert Located(fed, out, at, a);
    assert (out + [pkt])[..|out|] == out && (at + [a])[..|out|] == at;
  }

  /** The bytes fed are `done`, which holds every returned frame, followed by what is pending. */
  predicate Sound(h: History, at: seq<nat>, done: bytes)
  {
    && Located(h.fed, h.out, at, |done|)
    && (h.end.Waiting? ==> h.fed == done + h.end.pending)
  }

  lemma LocatedLater(fed: bytes, out: seq<Packet>, at: seq<nat>, limit: nat, later: nat)
    requires Located(fed, out, at, limit) && limit <= later <= |fed|
    ensures Located(fed, out, at, later)
  {
  }

  lemma LocateNext(fed: bytes, out: seq<Packet>, at: seq<nat>,
                   done: bytes, skipped: bytes, frame: bytes, rest: bytes, pkt: Packet)
    requires fed == done + (skipped + frame + rest) && Located(fed, out, at, |done|) && IsFrame(frame, pkt)
    ensures var start: nat := |done + skipped|;
            Located(fed, out + [pkt], at + [start], |done + skipped + frame|)
    ensures fed == done + skipped + frame + rest
  {
    FrameIsFrameOf(frame, pkt);
    var a := done + skipped;
    Assoc(done, skipped, frame);
    Assoc(done, skipped + frame, rest);
    Middle(a, frame, rest);
    LocatedSnoc(fed, out, at, |done|, pkt, |a|, |a + frame|);
  }

  lemma FoundStaysSound(includeStart: bool, h: History, at: seq<nat>, done: bytes) returns (at': seq<nat>, done': bytes)
    requires Sound(h, at, done) && h.end.Waiting? && Scan(includeStart, h.end.pending).Found?
    ensures Sound(Step(includeStart, h, DecodeOp), at', done')
  {
    var r := Scan(includeStart, h.end.pending);
    var skipped, frame := ScanSplits(includeStart, h.end.pending);
    var start: nat := |done + skipped|;
    at', done' := at + [start], done + skipped + frame;
    LocateNext(h.fed, h.out, at, done, skipped, frame, r.rest, r.pkt);
  }

  lemma OtherStaysSound(includeStart: bool, h: History, at: seq<nat>, done: bytes) returns (done': bytes)
    requires Sound(h, at, done) && h.end.Waiting? && !Scan(includeStart, h.end.pending).Found?
    ensures Sound(Step(includeStart, h, DecodeOp), at, done')
  {
    var r := Scan(includeStart, h.end.pending);
    if r.Partial? {
      var skipped, frame := ScanSplits(includeStart, h.end.pending);
      done' := done + skipped;
      assert h.fed == done' + r.rest;
    } else {
      done' := h.fed;
    }
    LocatedLater(h.fed, h.out, at, |done|, |done'|);
  }

  lemma FeedStaysSound(includeStart: bool, h: History, chunk: bytes, at: seq<nat>, done: bytes)
    requires Sound(h, at, done) && h.end.Waiting?
    ensures Sound(Step(includeStart, h, FeedOp(chunk)), at, done)
  {
    LocatedGrows(h.fed, chunk, h.out, at, |done|);
    Assoc(done, h.end.pending, chunk);
  }

  lemma StepStaysSound(includeStart: bool, h: History, op: Op, at: seq<nat>, done: bytes)
    returns (at': seq<nat>, done': bytes)
    requires Sound(h, at, done)
    ensures Sound(Step(includeStart, h, op), at', done')
  {
    at', done' := at, done;
    if h.end.Waiting? {
      match op {
        case FeedOp(chunk) =>
          FeedStaysSound(includeStart, h, chunk, at, done);
        case DecodeOp =>
          if Scan(includeStart, h.end.pending).Found? {
            at', done' := FoundStaysSound(includeStart, h, at, done);
          } else {
            done' := OtherStaysSound(includeStart, h, at, done);
          }
      }
    }
  }

  /**
   In every run of feeds and decodes, panic or not, the packets returned are valid frames at disjoint, increasing
   positions of the bytes fed, and what is pending is the end of those bytes.
   */
  lemma {:induction false} RunIsSound(includeStart: bool, ops: seq<Op>) returns (at: seq<nat>, done: bytes)
    ensures Sound(Exec(includeStart, ops), at, done)
  {
    if ops == [] {
      at, done := [], [];
    } else {
      at, done := RunIsSound(includeStart, ops[..|ops| - 1]);
      at, done := StepStaysSound(includeStart, Exec(includeStart, ops[..|ops| - 1]), ops[|ops| - 1], at, done);
    }
  }

  lemma {:induction false} LocatedSize(fed: bytes, out: seq<Packet>, at: seq<nat>, limit: nat)
    requires Located(fed, out, at, limit)
    ensures 25 * |out| <= limit
  {
    if out != [] {
      var n := |out| - 1;
      LocatedSize(fed, out[..n], at[..n], at[n]);
    }
  }

  /** Every packet costs at least 25 of the bytes fed. */
  lemma PacketsAreBounded(includeStart: bool, ops: seq<Op>)
    ensures 25 * |Exec(includeStart, ops).out| <= |Exec(includeStart, ops).fed|
  {
    var at, done := RunIsSound(includeStart, ops);
    var h := Exec(includeStart, ops);
    LocatedSize(h.fed, h.out, at, |done|);
  }

  // ---- Check-character mode ----------------------------------------------------------------------------

  lemma {:induction false} ScanEitherWay(includeStart: bool, p: bytes)
    ensures Scan(includeStart, p) == Scan(false, p)
    decreases |p|
  {
    var i := FirstMarker(p);
    if i >= 0 {
      JudgeEitherWay(includeStart, p[i..]);
      if Judge(includeStart, p[i..]) == Bad {
        ScanEitherWay(includeStart, p[i..][2..]);
      }
    }
  }

  /** Accepting the check character that also covers the start bytes changes no run on any input. */
  lemma {:induction false} ModesAgree(ops: seq<Op>)
    ensures Exec(true, ops) == Exec(false, ops)
  {
    if ops != [] {
      ModesAgree(ops[..|ops| - 1]);
      var h := Exec(false, ops[..|ops| - 1]);
      if h.end.Waiting? {
        ScanEitherWay(true, h.end.pending);
      }
    }
  }

  // ---- Resynchronisation and round trip ----------------------------------------------------------------

  lemma FrameIsFound(includeStart: bool, f: bytes, pkt: Packet, later: bytes)
    requires IsFrame(f, pkt)
    ensures Judge(includeStart, f + later) == Good
    ensures Scan(includeStart, f + later) == Found(pkt, later)
  {
    assert MarkerAt(f, 0) && MarkerAt(f + later, 0);
    assert FrameSize(f) == |f| && f[..|f|] == f;
    GoodIsFrame(includeStart, f);
    JudgeIsFinal(includeStart, f, later);
    assert (f + later)[0..] == f + later && (f + later)[|f|..] == later;
  }

  lemma FrameIsDrained(includeStart: bool, f: bytes, pkt: Packet, later: bytes)
    requires IsFrame(f, pkt)
    ensures Drain(includeStart, f + later)
            == DrainResult([pkt] + Drain(includeStart, later).packets, Drain(includeStart, later).last)
  {
    FrameIsFound(includeStart, f, pkt, later);
  }

  /** A candidate that is accepted gives this packet and rest only where the frame and the rest begin. */
  lemma FoundAt(includeStart: bool, q: bytes, pkt: Packet, later: bytes)
    requires MarkerAt(q, 0) && Conclude(includeStart, q) == Found(pkt, later)
    ensures |q| == 25 + |pkt.data| + |later|
  {
  }

  /**
   When a frame is the next thing returned: exactly when its first byte is the first candidate that is not rejected,
   whatever comes before and after it.
   */
  lemma FoundIff(includeStart: bool, a: bytes, f: bytes, pkt: Packet, later: bytes)
    requires IsFrame(f, pkt)
    ensures Scan(includeStart, a + (f + later)) == Found(pkt, later)
            <==> FirstLive(includeStart, a + (f + later), |a|)
  {
    var p := a + (f + later);
    ScanPicksFirstLive(includeStart, p);
    if FirstLive(includeStart, p, |a|) {
      FrameIsFound(includeStart, f, pkt, later);
      FrameIsConcluded(includeStart, f, pkt, later);
      assert p[|a|..] == f + later;
    } else if Scan(includeStart, p) == Found(pkt, later) {
      var j: nat :| Candidate(p, j) && Judge(includeStart, p[j..]) != Bad;
      var i := FirstLiveExists(includeStart, p, j);
      FoundAt(includeStart, p[i..], pkt, later);
    }
  }

  lemma FrameIsConcluded(includeStart: bool, f: bytes, pkt: Packet, later: bytes)
    requires IsFrame(f, pkt)
    ensures Conclude(includeStart, f + later) == Found(pkt, later)
  {
    FrameIsFound(includeStart, f, pkt, later);
    var q := f + later;
    assert MarkerAt(q, 0) && FirstMarker(q) == 0 && q[0..] == q;
  }

  lemma OddRun(junk: bytes, q: bytes)
    requires FirstMarker(junk) < 0 && EndsInStart(junk)
    ensures StartsBefore(junk + q, |junk|) == 1
  {
    var p, n := junk + q, |junk|;
    assert n > 1 && p[n - 2] == START ==> MarkerAt(junk, n - 2);
    assert StartsBefore(p, n) == StartsBefore(p, n - 1) + 1;
  }

  lemma LiveAfterJunkIff(includeStart: bool, junk: bytes, q: bytes)
    requires FirstMarker(junk) < 0 && MarkerAt(q, 0) && Judge(includeStart, q) != Bad
    ensures FirstLive(includeStart, junk + q, |junk|) <==> !EndsInStart(junk)
  {
    var p := junk + q;
    if EndsInStart(junk) {
      OddRun(junk, q);
    } else {
      MarkerMoves(junk, q);
      FirstMarkerIsCandidate(p);
      assert p[|junk|..] == q;
    }
  }

  /** A frame after marker-free bytes is found exactly when they do not end in a start byte. */
  lemma FoundAfterJunkIff(includeStart: bool, junk: bytes, f: bytes, pkt: Packet, later: bytes)
    requires FirstMarker(junk) < 0 && IsFrame(f, pkt)
    ensures Scan(includeStart, junk + (f + later)) == Found(pkt, later) <==> !EndsInStart(junk)
  {
    var q := f + later;
    FrameIsFound(includeStart, f, pkt, later);
    assert MarkerAt(q, 0);
    FoundIff(includeStart, junk, f, pkt, later);
    LiveAfterJunkIff(includeStart, junk, q);
  }

  /** A complete candidate with a wrong check character. */
  predicate Damaged(bad: bytes)
  {
    MarkerAt(bad, 0) && |bad| >= HEADER_SIZE && |bad| == FrameSize(bad) && !IsFrame(bad, PacketOf(bad))
  }

  lemma DamagedIsBad(includeStart: bool, bad: bytes, later: bytes)
    requires Damaged(bad)
    ensures Judge(includeStart, bad + later) == Bad
  {
    GoodIsFrame(includeStart, bad);
    assert bad[..|bad|] == bad;
    JudgeIsFinal(includeStart, bad, later);
  }

  lemma BadIsSkipped(includeStart: bool, bad: bytes, later: bytes)
    requires Damaged(bad)
    ensures Scan(includeStart, bad + later) == Scan(includeStart, bad[2..] + later)
  {
    DamagedIsBad(includeStart, bad, later);
    var q := bad + later;
    assert MarkerAt(q, 0);
    assert FirstMarker(q) == 0 && q[0..] == q && q[2..] == bad[2..] + later;
  }

  lemma JunkIsSkipped(includeStart: bool, junk: bytes, q: bytes)
    requires FirstMarker(junk) < 0 && !EndsInStart(junk) && MarkerAt(q, 0)
    ensures Scan(includeStart, junk + q) == Scan(includeStart, q)
  {
    MarkerMoves(junk, q);
    assert FirstMarker(q) == 0;
    assert (junk + q)[|junk|..] == q[0..];
  }

  lemma FoundAfterDamageIff(includeStart: bool, bad: bytes, good: bytes, pkt: Packet, later: bytes)
    requires Damaged(bad) && FirstMarker(bad[2..]) < 0 && IsFrame(good, pkt)
    ensures Scan(includeStart, bad + (good + later)) == Found(pkt, later) <==> !EndsInStart(bad)
  {
    var next, tail := good + later, bad[2..];
    assert EndsInStart(tail) <==> EndsInStart(bad);
    BadIsSkipped(includeStart, bad, next);
    FoundAfterJunkIff(includeStart, tail, good, pkt, later);
  }

  /**
   Resynchronisation: after marker-free bytes and a full-length frame with a wrong check character that hides no
   marker, a valid frame is the next one returned exactly when the damaged one does not end in a start byte.
   */
  lemma Resynchronises(includeStart: bool, junk: bytes, bad: bytes, good: bytes, pkt: Packet, later: bytes)
    requires FirstMarker(junk) < 0 && !EndsInStart(junk)
    requires Damaged(bad) && FirstMarker(bad[2..]) < 0
    requires IsFrame(good, pkt)
    ensures Scan(includeStart, junk + (bad + (good + later))) == Found(pkt, later) <==> !EndsInStart(bad)
  {
    var q := bad + (good + later);
    assert MarkerAt(q, 0);
    JunkIsSkipped(includeStart, junk, q);
    FoundAfterDamageIff(includeStart, bad, good, pkt, later);
  }

  /** A packet some frame carries. */
  predicate Carriable(pkt: Packet)
  {
    |pkt.vin| == VIN_LENGTH && |pkt.data| == pkt.length < 0x1_0000
  }

  predicate AllCarriable(pkts: seq<Packet>)
  {
    forall i :: 0 <= i < |pkts| ==> Carriable(pkts[i])
  }

  function FrameFor(pkt: Packet): (f: bytes)
    ensures |f| == |pkt.vin| + |pkt.data| + 8
  {
    FrameOf(pkt.command, pkt.response, pkt.vin, pkt.encryptType, pkt.data)
  }

  function FrameStream(pkts: seq<Packet>): bytes
  {
    if pkts == [] then [] else FrameFor(pkts[0]) + FrameStream(pkts[1..])
  }

  /** Concatenated frames drain to their packets in order with nothing pending, whatever their payloads contain. */
  lemma {:induction false} FramesRoundTrip(includeStart: bool, pkts: seq<Packet>)
    requires AllCarriable(pkts)
    ensures Drain(includeStart, FrameStream(pkts)) == DrainResult(pkts, NoMarker([]))
    decreases |pkts|
  {
    if pkts != [] {
      var f, pkt, rest := FrameFor(pkts[0]), pkts[0], pkts[1..];
      assert pkts == [pkt] + rest;
      FramesRoundTrip(includeStart, rest);
      FrameOfIsFrame(pkt);
      FrameIsDrained(includeStart, f, pkt, FrameStream(rest));
    }
  }

  /** What a sender passes to the frame encoder. */
  datatype Message = Message(command: byte, vin: bytes, encryptType: byte, data: bytes)

  predicate Encodable(ms: seq<Message>)
  {
    forall i :: 0 <= i < |ms| ==> |ms[i].vin| == VIN_LENGTH && |ms[i].data| < 0x1_0000
  }

  function Wire(m: Message): bytes
  {
    FrameOf(m.command, RESP_SUCCESS, m.vin, if m.encryptType == 0 then ENC_NONE else m.encryptType, m.data)
  }

  function Received(m: Message): Packet
  {
    Packet(m.command, RESP_SUCCESS, m.vin, if m.encryptType == 0 then ENC_NONE else m.encryptType, m.data, |m.data|)
  }

  function WireStream(ms: seq<Message>): bytes
  {
    if ms == [] then [] else Wire(ms[0]) + WireStream(ms[1..])
  }

  function ReceivedAll(ms: seq<Message>): seq<Packet>
  {
    if ms == [] then [] else [Received(ms[0])] + ReceivedAll(ms[1..])
  }

  lemma {:induction false} WireIsFrameStream(ms: seq<Message>)
    requires Encodable(ms)
    ensures WireStream(ms) == FrameStream(ReceivedAll(ms)) && AllCarriable(ReceivedAll(ms))
    decreases |ms|
  {
    if ms != [] {
      WireIsFrameStream(ms[1..]);
      assert ReceivedAll(ms)[1..] == ReceivedAll(ms[1..]);
    }
  }

  /** Whatever messages are encoded one after another, the decoder returns the same messages in order. */
  lemma StreamRoundTrip(includeStart: bool, ms: seq<Message>)
    requires Encodable(ms)
    ensures Drain(includeStart, WireStream(ms)) == DrainResult(ReceivedAll(ms), NoMarker([]))
  {
    WireIsFrameStream(ms);
    FramesRoundTrip(includeStart, ReceivedAll(ms));
  }

  /** One encoded message comes back exactly when its payload length fits the 16-bit field. */
  lemma RoundTripIff(includeStart: bool, m: Message)
    requires |m.vin| == VIN_LENGTH
    ensures Scan(includeStart, Wire(m)) == Found(Received(m), []) <==> |m.data| < 0x1_0000
  {
    if |m.data| < 0x1_0000 {
      FrameOfIsFrame(Received(m));
      FrameIsFound(includeStart, Wire(m), Received(m), []);
      assert Wire(m) + [] == Wire(m);
    } else if Scan(includeStart, Wire(m)).Found? {
      var skipped, frame := ScanSplits(includeStart, Wire(m));
      FrameIsFrameOf(frame, Scan(includeStart, Wire(m)).pkt);
    }
  }

  // ---- Error detection ---------------------------------------------------------------------------------

  lemma CorruptedIsNoFrame(f: bytes, pkt: Packet, i: nat, b: byte)
    requires IsFrame(f, pkt) && 2 <= i < |f| && i != 22 && i != 23 && b != f[i]
    ensures Damaged(f[i := b])
  {
    var g, n := f[i := b], |f|;
    assert DataLen(g) == DataLen(f);
    if i < n - 1 {
      assert g[2..n - 1] == f[2..n - 1][i - 2 := b];
      BCCDetects(f[2..n - 1], i - 2, b);
    } else {
      assert g[2..n - 1] == f[2..n - 1];
    }
  }

  /** A valid frame with one byte changed outside marker and length is rejected; the scan resumes two bytes further. */
  lemma OneByteErrorRejected(includeStart: bool, f: bytes, pkt: Packet, i: nat, b: byte, later: bytes)
    requires IsFrame(f, pkt) && 2 <= i < |f| && i != 22 && i != 23 && b != f[i]
    ensures Judge(includeStart, f[i := b] + later) == Bad
    ensures Scan(includeStart, f[i := b] + later) == Scan(includeStart, f[i := b][2..] + later)
  {
    CorruptedIsNoFrame(f, pkt, i, b);
    DamagedIsBad(includeStart, f[i := b], later);
    BadIsSkipped(includeStart, f[i := b], later);
  }
}
