/**
 The stream as it arrives: bytes appended to a scan and to a drain, independence of the way the stream is cut
 into chunks, and the points where a cut is safe whatever follows.
 */
module Stream {
  import opened Bytes
  import opened Frame
  import opened Scanning

  // ---- Bytes that arrive later -------------------------------------------------------------------------

  predicate EndsInStart(p: bytes)
  {
    p != [] && p[|p| - 1] == START
  }

  /** Joining `p` and `q` does not create a marker across the cut. */
  predicate CleanJoin(p: bytes, q: bytes)
  {
    EndsInStart(p) && q != [] ==> q[0] != START
  }

  lemma MarkerSurvives(p: bytes, q: bytes)
    requires FirstMarker(p) >= 0
    ensures FirstMarker(p + q) == FirstMarker(p)
  {
    assert MarkerAt(p + q, FirstMarker(p));
    assert forall j: nat :: j < FirstMarker(p) && MarkerAt(p + q, j) ==> MarkerAt(p, j);
  }

  lemma MarkerMoves(p: bytes, q: bytes)
    requires FirstMarker(p) < 0 && CleanJoin(p, q)
    ensures FirstMarker(p + q) == if FirstMarker(q) < 0 then -1 else |p| + FirstMarker(q)
  {
    forall j: nat | MarkerAt(p + q, j)
      ensures j >= |p| && MarkerAt(q, j - |p|)
    {
      if j + 1 < |p| {
        assert MarkerAt(p, j);
      }
    }
    if FirstMarker(q) >= 0 {
      assert MarkerAt(p + q, |p| + FirstMarker(q));
    }
  }

  lemma JudgeIsFinal(includeStart: bool, q: bytes, r: bytes)
    requires Judge(includeStart, q) in {Good, Bad}
    ensures Judge(includeStart, q + r) == Judge(includeStart, q)
    ensures FrameSize(q + r) == FrameSize(q) <= |q| && PacketOf(q + r) == PacketOf(q)
  {
    var s := q + r;
    var n := DataLen(q);
    assert DataLen(s) == n;
    assert s[..24] == q[..24] && s[24..24 + n] == q[24..24 + n] && s[4..21] == q[4..21];
  }

  /** Two scan results the decoder cannot tell apart. */
  predicate Same(a: ScanResult, b: ScanResult)
  {
    a == b || (a.NoMarker? && b.NoMarker?)
  }

  /**
   Scanning `p` with `q` appended: a frame found in `p` is found again, an incomplete candidate is judged anew
   with the bytes kept, and marker-free bytes may be dropped when the join is clean.
   */
  lemma {:induction false} ScanAppend(includeStart: bool, p: bytes, q: bytes)
    ensures var r := Scan(includeStart, p);
            && (r.Found? ==> Scan(includeStart, p + q) == Found(r.pkt, r.rest + q))
            && (r.Partial? ==> Scan(includeStart, p + q) == Scan(includeStart, r.rest + q))
            && (r.NoMarker? && CleanJoin(r.tail, q) ==> Same(Scan(includeStart, p + q), Scan(includeStart, q)))
    decreases |p|
  {
    var i := FirstMarker(p);
    if i < 0 {
      if CleanJoin(p, q) {
        MarkerMoves(p, q);
        if FirstMarker(q) >= 0 {
          assert (p + q)[|p| + FirstMarker(q)..] == q[FirstMarker(q)..];
        }
      }
    } else {
      MarkerSurvives(p, q);
      var c := p[i..];
      DropOfConcat(p, i, q);
      match Judge(includeStart, c) {
        case Good =>
          JudgeIsFinal(includeStart, c, q);
          DropOfConcat(c, FrameSize(c), q);
        case Bad =>
          JudgeIsFinal(includeStart, c, q);
          DropOfConcat(c, 2, q);
          ScanAppend(includeStart, c[2..], q);
        case Incomplete =>
          MarkerSurvives(c, q);
          assert FirstMarker(c) == 0 by { assert MarkerAt(c, 0); }
          assert (c + q)[0..] == c + q;
        case Overrun =>
      }
    }
  }

  lemma SameScanSameDrain(includeStart: bool, a: bytes, b: bytes)
    requires Same(Scan(includeStart, a), Scan(includeStart, b))
    ensures Observe(Drain(includeStart, a)) == Observe(Drain(includeStart, b))
  {
  }

  // ---- Chunking ----------------------------------------------------------------------------------------

  /** The bytes so far may be drained before `q` arrives: no panic, no start byte thrown away that `q` completes. */
  predicate SafeJoin(includeStart: bool, p: bytes, q: bytes)
  {
    var r := Drain(includeStart, p).last;
    !r.Fault? && (r.NoMarker? ==> CleanJoin(r.tail, q))
  }

  /** Feed one more chunk to a decoder in the observed condition, then drain it. */
  function Resume(includeStart: bool, o: Outcome, chunk: bytes): Outcome
  {
    if o.end.Crashed? then o
    else
      var d := Observe(Drain(includeStart, o.end.pending + chunk));
      Outcome(o.packets + d.packets, d.end)
  }

  function After(pkt: Packet, o: Outcome): Outcome
  {
    Outcome([pkt] + o.packets, o.end)
  }

  lemma ResumeAfter(includeStart: bool, pkt: Packet, o: Outcome, q: bytes)
    ensures Resume(includeStart, After(pkt, o), q) == After(pkt, Resume(includeStart, o, q))
  {
    if o.end.Waiting? {
      var more := Drain(includeStart, o.end.pending + q).packets;
      assert [pkt] + (o.packets + more) == ([pkt] + o.packets) + more;
    }
  }

  lemma ResumeFresh(includeStart: bool, held: bytes, q: bytes)
    ensures Resume(includeStart, Outcome([], Waiting(held)), q) == Observe(Drain(includeStart, held + q))
  {
    var d := Drain(includeStart, held + q).packets;
    assert [] + d == d;
  }

  /** Drain(p + q) is the packets of p followed by the drain of what p left over, with q appended. */
  lemma {:induction false} DrainAppend(includeStart: bool, p: bytes, q: bytes)
    requires SafeJoin(includeStart, p, q)
    ensures Observe(Drain(includeStart, p + q)) == Resume(includeStart, Observe(Drain(includeStart, p)), q)
    decreases |p|
  {
    var r := Scan(includeStart, p);
    ScanAppend(includeStart, p, q);
    match r {
      case Found(pkt, rest) =>
        ScanShrinks(includeStart, p);
        DrainAppend(includeStart, rest, q);
        ResumeAfter(includeStart, pkt, Observe(Drain(includeStart, rest)), q);
      case NoMarker(tail) =>
        SameScanSameDrain(includeStart, p + q, q);
        ResumeFresh(includeStart, [], q);
        assert [] + q == q;
      case Partial(rest) =>
        SameScanSameDrain(includeStart, p + q, rest + q);
        ResumeFresh(includeStart, rest, q);
    }
  }

  /** A connection's whole life: every received chunk is fed and then drained. */
  function Run(includeStart: bool, chunks: seq<bytes>): Outcome
  {
    if chunks == [] then Outcome([], Waiting([]))
    else Resume(includeStart, Run(includeStart, chunks[..|chunks| - 1]), chunks[|chunks| - 1])
  }

  /** Every cut of the stream into these chunks is safe. */
  predicate SafelyCut(includeStart: bool, chunks: seq<bytes>)
  {
    forall j: nat :: j < |chunks| ==> SafeJoin(includeStart, Flat(chunks[..j]), Flat(chunks[j..]))
  }

  lemma SafeJoinNearer(includeStart: bool, p: bytes, c: bytes, later: bytes)
    requires SafeJoin(includeStart, p, c + later)
    ensures SafeJoin(includeStart, p, c)
  {
  }

  lemma FlatCut(chunks: seq<bytes>, n: nat)
    requires n < |chunks|
    ensures Flat(chunks[..n + 1]) == Flat(chunks[..n]) + chunks[n]
    ensures Flat(chunks[n..]) == chunks[n] + Flat(chunks[n + 1..])
  {
    assert chunks[..n + 1] == chunks[..n] + [chunks[n]];
    FlatSnoc(chunks[..n], chunks[n]);
    assert chunks[n..][1..] == chunks[n + 1..];
  }

  lemma RunSnoc(includeStart: bool, chunks: seq<bytes>, n: nat)
    requires n < |chunks|
    ensures Run(includeStart, chunks[..n + 1]) == Resume(includeStart, Run(includeStart, chunks[..n]), chunks[n])
  {
    assert chunks[..n + 1][..n] == chunks[..n];
  }

  lemma {:induction false} RunPrefix(includeStart: bool, chunks: seq<bytes>, n: nat)
    requires n <= |chunks| && SafelyCut(includeStart, chunks)
    ensures Run(includeStart, chunks[..n]) == Observe(Drain(includeStart, Flat(chunks[..n])))
  {
    if n > 0 {
      var p, c := Flat(chunks[..n - 1]), chunks[n - 1];
      RunPrefix(includeStart, chunks, n - 1);
      FlatCut(chunks, n - 1);
      SafeJoinNearer(includeStart, p, c, Flat(chunks[n..]));
      DrainAppend(includeStart, p, c);
      RunSnoc(includeStart, chunks, n - 1);
    }
  }

  /** Feeding and draining chunk by chunk equals draining the whole stream at once. */
  lemma ChunkedEqualsWhole(includeStart: bool, chunks: seq<bytes>)
    requires SafelyCut(includeStart, chunks)
    ensures Run(includeStart, chunks) == Observe(Drain(includeStart, Flat(chunks)))
  {
    RunPrefix(includeStart, chunks, |chunks|);
    assert chunks[..|chunks|] == chunks;
  }

  /** Chunking independence: two safe ways of cutting one stream give the same packets and the same pending bytes. */
  lemma ChunkingIndependence(includeStart: bool, chunks: seq<bytes>, others: seq<bytes>)
    requires Flat(chunks) == Flat(others)
    requires SafelyCut(includeStart, chunks) && SafelyCut(includeStart, others)
    ensures Run(includeStart, chunks) == Run(includeStart, others)
  {
    ChunkedEqualsWhole(includeStart, chunks);
    ChunkedEqualsWhole(includeStart, others);
  }

  /** A point where the stream may be cut whatever follows. */
  predicate SafePoint(includeStart: bool, p: bytes)
  {
    var r := Drain(includeStart, p).last;
    !r.Fault? && !(r.NoMarker? && EndsInStart(r.tail))
  }

  lemma OverrunCompleted(includeStart: bool, c: bytes, b: byte)
    requires Judge(includeStart, c) == Overrun && b == BCC(c[..24][2..] + c[24..])
    ensures Judge(includeStart, c + [b]) == Good && FrameSize(c + [b]) == |c + [b]|
  {
    var s, n := c + [b], DataLen(c);
    assert DataLen(s) == n;
    assert s[..24] == c[..24] && s[24..24 + n] == c[24..] && s[24 + n] == b;
  }

  lemma {:induction false} FaultIsRepaired(includeStart: bool, p: bytes) returns (b: byte)
    requires Scan(includeStart, p).Fault?
    ensures Scan(includeStart, p + [b]).Found? && Scan(includeStart, p + [b]).rest == []
    decreases |p|
  {
    var i := FirstMarker(p);
    var c := p[i..];
    if Judge(includeStart, c) == Bad {
      b := FaultIsRepaired(includeStart, c[2..]);
      JudgeIsFinal(includeStart, c, [b]);
      DropOfConcat(c, 2, [b]);
    } else {
      b := BCC(c[..24][2..] + c[24..]);
      OverrunCompleted(includeStart, c, b);
    }
    MarkerSurvives(p, [b]);
    DropOfConcat(p, i, [b]);
  }

  lemma {:induction false} LostStartIsMissed(includeStart: bool, p: bytes)
    requires Scan(includeStart, p).NoMarker? && EndsInStart(Scan(includeStart, p).tail)
    ensures Scan(includeStart, p + [START]) == Partial([START, START])
    decreases |p|
  {
    var i := FirstMarker(p);
    if i < 0 {
      var s := p + [START];
      assert MarkerAt(s, |p| - 1);
      assert forall j: nat :: j < |p| - 1 && MarkerAt(s, j) ==> MarkerAt(p, j);
      assert s[|p| - 1..] == [START, START];
    } else {
      var c := p[i..];
      JudgeIsFinal(includeStart, c, [START]);
      DropOfConcat(c, 2, [START]);
      LostStartIsMissed(includeStart, c[2..]);
      MarkerSurvives(p, [START]);
      DropOfConcat(p, i, [START]);
    }
  }

  /** At an unsafe point some continuation is decoded differently from the uncut stream. */
  lemma {:induction false} UnsafePointMatters(includeStart: bool, p: bytes) returns (q: bytes)
    requires !SafePoint(includeStart, p)
    ensures Observe(Drain(includeStart, p + q)).end != Resume(includeStart, Observe(Drain(includeStart, p)), q).end
    decreases |p|
  {
    var r := Scan(includeStart, p);
    match r {
      case Found(pkt, rest) =>
        ScanShrinks(includeStart, p);
        q := UnsafePointMatters(includeStart, rest);
        ScanAppend(includeStart, p, q);
      case Fault =>
        var b := FaultIsRepaired(includeStart, p);
        q := [b];
        assert Drain(includeStart, []) == DrainResult([], NoMarker([]));
      case NoMarker(_) =>
        LostStartIsMissed(includeStart, p);
        q := [START];
        assert [] + [START] == [START];
        assert Drain(includeStart, [START]) == DrainResult([], NoMarker([START]));
    }
  }

  /** A stream may be cut after `p`, whatever follows, exactly when draining `p` neither panics nor drops a start byte. */
  lemma SafePointIff(includeStart: bool, p: bytes)
    ensures SafePoint(includeStart, p) <==>
            forall q :: Observe(Drain(includeStart, p + q)) == Resume(includeStart, Observe(Drain(includeStart, p)), q)
  {
    if SafePoint(includeStart, p) {
      forall q
        ensures Observe(Drain(includeStart, p + q)) == Resume(includeStart, Observe(Drain(includeStart, p)), q)
      {
        DrainAppend(includeStart, p, q);
      }
    } else {
      var q := UnsafePointMatters(includeStart, p);
    }
  }
}
