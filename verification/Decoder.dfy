/** The stream decoder: a buffer with a read position, refining the scan of module Scanning. */
module StreamDecoder {
  import opened Bytes
  import opened Frame
  import opened Scanning

  /** What `Decode` hands back; Panic stands for Go's index-out-of-range panic. */
  datatype Decoded = NoPacket | GotPacket(pkt: Packet) | Panic

  function ResultOf(r: ScanResult): Decoded
  {
    match r
    case Found(pkt, _) => GotPacket(pkt)
    case Fault => Panic
    case NoMarker(_) => NoPacket
    case Partial(_) => NoPacket
  }

  lemma TakeOneMore(header: bytes, data: bytes, i: nat)
    requires i < |data|
    ensures header + data[..i + 1] == header + data[..i] + [data[i]]
  {
  }

  lemma SkipTo(b: bytes, lo: nat, hi: nat, k: nat)
    requires lo + k <= hi <= |b|
    ensures b[lo..hi][k..] == b[lo + k..hi]
  {
    SubSlice(b, lo, hi, k, hi - lo);
    assert b[lo..hi][k..] == b[lo..hi][k..hi - lo];
  }

  /** Decode returned what the scan found and kept pending what the scan holds; after a panic nothing is promised. */
  predicate Delivers(s: ScanResult, r: Decoded, after: bytes)
  {
    r == ResultOf(s) && (!r.Panic? ==> Waiting(after) == Hold(s))
  }

  /** What trying the candidate `q` returned and left pending is what its verdict demands. */
  predicate Settled(includeStart: bool, q: bytes, rejected: bool, r: Decoded, after: bytes)
  {
    match Judge(includeStart, q)
    case Incomplete => !rejected && r == NoPacket && after == q
    case Overrun => !rejected && r == Panic
    case Bad => rejected && after == q[2..]
    case Good => !rejected && r == GotPacket(PacketOf(q)) && after == q[FrameSize(q)..]
  }

  lemma ShortHeader(includeStart: bool, b: bytes, lo: nat, hi: nat)
    requires lo <= hi <= |b| && hi - lo < HEADER_SIZE
    ensures Settled(includeStart, b[lo..hi], false, NoPacket, b[lo..hi])
  {
  }

  lemma ShortPayload(includeStart: bool, b: bytes, lo: nat, hi: nat)
    requires lo + HEADER_SIZE <= hi <= |b| && U16(b[lo..lo + HEADER_SIZE], 22) > hi - lo - HEADER_SIZE
    ensures Settled(includeStart, b[lo..hi], false, NoPacket, b[lo..hi])
  {
  }

  lemma NoCheckCharacter(includeStart: bool, b: bytes, lo: nat, hi: nat, after: bytes)
    requires lo + HEADER_SIZE <= hi <= |b| && U16(b[lo..lo + HEADER_SIZE], 22) == hi - lo - HEADER_SIZE
    ensures Settled(includeStart, b[lo..hi], false, Panic, after)
  {
  }

  lemma PartsOfCandidate(b: bytes, lo: nat, hi: nat, n: nat)
    requires lo + HEADER_SIZE + n < hi <= |b| && U16(b[lo..lo + HEADER_SIZE], 22) == n
    ensures var q := b[lo..hi];
            && DataLen(q) == n && b[lo..lo + 24] == q[..24] && b[lo..lo + 24][4..21] == q[4..21]
            && b[lo + 24..lo + 24 + n] == q[24..24 + n] && b[lo + 24 + n] == q[24 + n]
  {
    SubSlice(b, lo, hi, 0, 24);
    SubSlice(b, lo, hi, 4, 21);
    SubSlice(b, lo, lo + 24, 4, 21);
    SubSlice(b, lo, hi, 24, 24 + n);
  }

  lemma WholeCandidate(includeStart: bool, b: bytes, lo: nat, hi: nat, n: nat)
    requires lo + HEADER_SIZE + n < hi <= |b| && U16(b[lo..lo + HEADER_SIZE], 22) == n
    ensures var h, data := b[lo..lo + HEADER_SIZE], b[lo + 24..lo + 24 + n];
            if Accepts(includeStart, h, data, b[lo + 24 + n])
            then Settled(includeStart, b[lo..hi], false, GotPacket(Packet(h[2], h[3], h[4..21], h[21], data, n)),
                         b[lo + 25 + n..hi])
            else Settled(includeStart, b[lo..hi], true, NoPacket, b[lo + 2..hi])
  {
    PartsOfCandidate(b, lo, hi, n);
    SkipTo(b, lo, hi, 25 + n);
    SkipTo(b, lo, hi, 2);
  }

  lemma SettledScan(includeStart: bool, p: bytes, q: bytes, rejected: bool, r: Decoded, after: bytes)
    requires FirstMarker(p) >= 0 && q == p[FirstMarker(p)..] && Settled(includeStart, q, rejected, r, after)
    ensures rejected ==> |after| + 2 <= |p| && Scan(includeStart, after) == Scan(includeStart, p)
    ensures !rejected ==> Delivers(Scan(includeStart, p), r, after)
  {
    ScanAtMarker(includeStart, p, q);
  }

  /** Check character of a header, continued over the payload. */
  method ExtendBCC(header: bytes, data: bytes) returns (bcc: byte)
    ensures bcc == BCC(header + data)
  {
    bcc := CalculateBCC(header);
    assert header + data[..0] == header;
    for i := 0 to |data|
      invariant bcc == BCC(header + data[..i])
    {
      TakeOneMore(header, data, i);
      BCCSnoc(header + data[..i], data[i]);
      bcc := Xor(bcc, data[i]);
    }
    assert data[..|data|] == data;
  }

  /**
   The buffer is replaced by every Feed and never written in place, so its contents are a sequence; nil and an
   empty buffer behave alike.
   */
  class Decoder {
    var buf: bytes
    var pos: nat
    var limit: nat
    const bccIncludeStart: bool

    ghost predicate Valid()
      reads this
    {
      pos <= limit == |buf|
    }

    /** The abstract state: bytes fed but not yet consumed. */
    ghost function Pending(): bytes
      requires Valid()
      reads this
    {
      buf[pos..limit]
    }

    constructor (includeStart: bool)
      ensures Valid() && Pending() == [] && bccIncludeStart == includeStart
    {
      buf, pos, limit := [], 0, 0;
      bccIncludeStart := includeStart;
    }

    method Reset()
      modifies this
      ensures Valid() && Pending() == []
    {
      buf, pos, limit := [], 0, 0;
    }

    method Feed(data: bytes)
      requires Valid()
      modifies this
      ensures Valid() && Pending() == old(Pending()) + data
      ensures pos == 0
    {
      var remaining := limit - pos;
      if remaining > 0 {
        buf := buf[pos..] + data;
      } else {
        buf := data;
      }
      pos := 0;
      limit := |buf|;
    }

    method FindStartMarker() returns (startIdx: int)
      requires Valid()
      ensures startIdx == if FirstMarker(Pending()) < 0 then -1 else pos + FirstMarker(Pending())
    {
      ghost var p := Pending();
      var i := pos;
      while i + 1 < limit
        invariant pos <= i
        invariant forall j: nat :: j < i - pos ==> !MarkerAt(p, j)
      {
        if buf[i] == START && buf[i + 1] == START {
          assert MarkerAt(p, i - pos);
          return i;
        }
        i := i + 1;
      }
      return -1;
    }

    method VerifyBCC(header: bytes, data: bytes, bcc: byte) returns (ok: bool)
      requires |header| == HEADER_SIZE
      ensures ok == Accepts(bccIncludeStart, header, data, bcc)
    {
      var calcBCC := ExtendBCC(header[2..], data);
      if calcBCC == bcc {
        return true;
      }
      if bccIncludeStart {
        var calcBCC2 := ExtendBCC(header, data);
        if calcBCC2 == bcc {
          return true;
        }
      }
      return false;
    }

    /** The candidate at the read position: parse the header, wait for the payload, check the check character. */
    method TryCandidate() returns (rejected: bool, r: Decoded)
      requires Valid()
      modifies this
      ensures Valid() && buf == old(buf)
      ensures Settled(bccIncludeStart, old(Pending()), rejected, r, Pending())
    {
      var startIdx := pos;
      if limit - pos < HEADER_SIZE {
        ShortHeader(bccIncludeStart, buf, pos, limit);
        return false, NoPacket;
      }
      var header := buf[pos..pos + HEADER_SIZE];
      var dataLength := U16(header, 22);
      pos := pos + HEADER_SIZE;
      if dataLength > limit - pos {
        pos := startIdx;
        ShortPayload(bccIncludeStart, buf, pos, limit);
        return false, NoPacket;
      }
      var data := buf[pos..pos + dataLength];
      pos := pos + dataLength;
      if pos == limit {
        NoCheckCharacter(bccIncludeStart, buf, startIdx, limit, Pending());
        return false, Panic;
      }
      var bcc := buf[pos];
      pos := pos + 1;
      WholeCandidate(bccIncludeStart, buf, startIdx, limit, dataLength);
      var ok := VerifyBCC(header, data, bcc);
      if !ok {
        pos := startIdx + 2;
        return true, NoPacket;
      }
      return false, GotPacket(Packet(header[2], header[3], header[4..21], header[21], data, dataLength));
    }

    /** One round of Decode's loop: find the next marker and try the candidate there. */
    method NextCandidate() returns (rejected: bool, r: Decoded)
      requires Valid()
      modifies this
      ensures Valid()
      ensures rejected ==> |Pending()| + 2 <= |old(Pending())|
      ensures rejected ==> Scan(bccIncludeStart, Pending()) == Scan(bccIncludeStart, old(Pending()))
      ensures !rejected ==> Delivers(Scan(bccIncludeStart, old(Pending())), r, Pending())
    {
      ghost var p, start := Pending(), pos;
      var startIdx := FindStartMarker();
      if startIdx < 0 {
        Reset();
        assert Scan(bccIncludeStart, p) == NoMarker(p);
        return false, NoPacket;
      }
      pos := startIdx;
      ghost var q := Pending();
      assert q == p[FirstMarker(p)..] by {
        SkipTo(buf, start, limit, FirstMarker(p));
      }
      rejected, r := TryCandidate();
      SettledScan(bccIncludeStart, p, q, rejected, r, Pending());
    }

    /** One scan of the pending bytes: a candidate is kept while incomplete, all is dropped without a marker. */
    method Decode() returns (r: Decoded)
      requires Valid()
      modifies this
      ensures Valid()
      ensures Delivers(Scan(bccIncludeStart, old(Pending())), r, Pending())
    {
      ghost var whole := Scan(bccIncludeStart, Pending());
      var rejected;
      rejected, r := NextCandidate();
      while rejected
        invariant Valid()
        invariant if rejected then Scan(bccIncludeStart, Pending()) == whole else Delivers(whole, r, Pending())
        decreases rejected, |Pending()|
      {
        rejected, r := NextCandidate();
      }
    }

    /** The loop of processPackets, without the handling of each packet. */
    method DrainPackets() returns (packets: seq<Packet>, panicked: bool)
      requires Valid()
      modifies this
      ensures Valid()
      ensures Outcome(packets, if panicked then Crashed else Waiting(Pending()))
              == Observe(Drain(bccIncludeStart, old(Pending())))
    {
      packets := [];
      ghost var p := Pending();
      ghost var whole := Observe(Drain(bccIncludeStart, p));
      PrefixedByNothing(whole);
      while true
        invariant Valid() && Pending() == p
        invariant whole == Prefixed(packets, Observe(Drain(bccIncludeStart, p)))
        decreases |p|
      {
        DrainStep(bccIncludeStart, packets, p);
        var r := Decode();
        match r {
          case NoPacket => return packets, false;
          case Panic => return packets, true;
          case GotPacket(pkt) =>
            packets := packets + [pkt];
            p := Pending();
        }
      }
    }
  }

  function Prefixed(packets: seq<Packet>, o: Outcome): Outcome
  {
    Outcome(packets + o.packets, o.end)
  }

  lemma PrefixedByNothing(o: Outcome)
    ensures Prefixed([], o) == o
  {
  }

  lemma DrainStep(includeStart: bool, packets: seq<Packet>, p: bytes)
    ensures var r, d := Scan(includeStart, p), Observe(Drain(includeStart, p));
            && (!r.Found? ==> Prefixed(packets, d) == Outcome(packets, Hold(r)))
            && (r.Found? ==> |r.rest| < |p|)
            && (r.Found? ==> Prefixed(packets, d) == Prefixed(packets + [r.pkt], Observe(Drain(includeStart, r.rest))))
  {
    ScanShrinks(includeStart, p);
    var r := Scan(includeStart, p);
    if r.Found? {
      SnocCons(packets, r.pkt, Drain(includeStart, r.rest).packets);
    }
  }
}
