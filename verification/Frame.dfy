/**
 The frame of section 6.2 of GB/T 32960.3-2016: two start bytes, command, response flag, 17 VIN bytes,
 encryption type, 16-bit length, payload, block check character.
 */
module Frame {
  import opened Bytes

  const START: byte := 0x23
  const HEADER_SIZE: nat := 24
  const VIN_LENGTH: nat := 17
  const RESP_SUCCESS: byte := 0xFE
  const ENC_NONE: byte := 0x01
  const ENC_AES128: byte := 0x03

  datatype Packet = Packet(command: byte, response: byte, vin: bytes, encryptType: byte, data: bytes, length: nat)

  datatype FrameError = InvalidVIN

  /** Block check character: the exclusive-or of all bytes. */
  function BCC(s: bytes): (r: byte)
  {
    if s == [] then 0 else Xor(BCC(s[..|s| - 1]), s[|s| - 1])
  }

  lemma BCCSnoc(s: bytes, x: byte)
    ensures BCC(s + [x]) == Xor(BCC(s), x)
  {
    assert (s + [x])[..|s|] == s;
  }

  lemma {:induction false} BCCConcat(a: bytes, b: bytes)
    ensures BCC(a + b) == Xor(BCC(a), BCC(b))
  {
    if b == [] {
      assert a + b == a;
      XorZero(BCC(a));
    } else {
      var b', x := b[..|b| - 1], b[|b| - 1];
      assert (a + b)[..|a + b| - 1] == a + b';
      BCCConcat(a, b');
      XorAssoc(BCC(a), BCC(b'), x);
    }
  }

  /** The two equal start bytes cancel, so counting them in or out gives the same check character. */
  lemma BCCIgnoresMarker(s: bytes)
    ensures BCC([START, START] + s) == BCC(s)
  {
    BCCConcat([START, START], s);
    BCCConcat([START], [START]);
    assert [START] + [START] == [START, START];
    XorCancel(0, BCC([START]));
    XorZero(BCC([START]));
    XorComm(0, BCC(s));
    XorZero(BCC(s));
  }

  lemma BCCTrailingZero(s: bytes)
    ensures BCC(s + [0]) == BCC(s)
  {
    assert (s + [0])[..|s|] == s;
    XorZero(BCC(s));
  }

  /** Replacing one byte by a different one changes the check character. */
  lemma BCCDetects(s: bytes, i: nat, b: byte)
    requires i < |s| && b != s[i]
    ensures BCC(s[i := b]) != BCC(s)
  {
    var pre, post := s[..i], s[i + 1..];
    assert s == (pre + [s[i]]) + post && s[i := b] == (pre + [b]) + post;
    BCCConcat(pre + [s[i]], post);
    BCCConcat(pre + [b], post);
    assert (pre + [s[i]])[..i] == pre == (pre + [b])[..i];
    if BCC(s[i := b]) == BCC(s) {
      XorInjective(BCC(pre + [b]), BCC(pre + [s[i]]), BCC(post));
      XorComm(BCC(pre), b);
      XorComm(BCC(pre), s[i]);
      XorInjective(b, s[i], BCC(pre));
    }
  }

  /** The header and payload of a frame, before the check character. */
  function Body(command: byte, response: byte, vin: bytes, encryptType: byte, data: bytes): (b: bytes)
  {
    [command, response] + vin + [encryptType] + Put16(|data|) + data
  }

  /** The frame the standard prescribes for these fields. */
  function FrameOf(command: byte, response: byte, vin: bytes, encryptType: byte, data: bytes): (f: bytes)
  {
    var body := Body(command, response, vin, encryptType, data);
    [START, START] + body + [BCC(body)]
  }

  /** The declared payload length of a header. */
  function DataLen(q: bytes): (n: nat)
    requires |q| >= HEADER_SIZE
    ensures n < 0x1_0000
  {
    U16(q, 22)
  }

  /** The fields a decoder reads from a complete frame at the front of `q`. */
  function PacketOf(q: bytes): Packet
    requires |q| >= HEADER_SIZE && |q| >= HEADER_SIZE + DataLen(q)
  {
    Packet(q[2], q[3], q[4..21], q[21], q[24..24 + DataLen(q)], DataLen(q))
  }

  /** `f` is exactly one frame, its length and check character are right, and it carries `pkt`. */
  predicate IsFrame(f: bytes, pkt: Packet)
  {
    && |f| >= HEADER_SIZE + 1
    && f[0] == START && f[1] == START
    && |f| == HEADER_SIZE + DataLen(f) + 1
    && BCC(f[2..|f| - 1]) == f[|f| - 1]
    && pkt == PacketOf(f)
  }

  /** Every packet a decoder can produce is carried by exactly the prescribed frame. */
  lemma FrameOfIsFrame(pkt: Packet)
    requires |pkt.vin| == VIN_LENGTH && |pkt.data| == pkt.length < 0x1_0000
    ensures IsFrame(FrameOf(pkt.command, pkt.response, pkt.vin, pkt.encryptType, pkt.data), pkt)
  {
    var g := FrameOf(pkt.command, pkt.response, pkt.vin, pkt.encryptType, pkt.data);
    var body := Body(pkt.command, pkt.response, pkt.vin, pkt.encryptType, pkt.data);
    assert |body| == 22 + |pkt.data|;
    assert g[2..|g| - 1] == body;
    assert g[22..24] == Put16(|pkt.data|);
    assert U16(g, 22) == U16(g[22..24], 0);
    assert g[4..21] == pkt.vin;
    assert g[24..24 + |pkt.data|] == pkt.data;
  }

  lemma BodyIsSlice(f: bytes, n: nat)
    requires HEADER_SIZE + n <= |f| && U16(f, 22) == n == |f[24..24 + n]|
    ensures Body(f[2], f[3], f[4..21], f[21], f[24..24 + n]) == f[2..24 + n]
  {
    Put16Reads(f, 22);
    assert f[2..4] == [f[2], f[3]] && f[21..22] == [f[21]];
    JoinSlices(f, 2, 4, 21);
    JoinSlices(f, 2, 21, 22);
    JoinSlices(f, 2, 22, 24);
    JoinSlices(f, 2, 24, 24 + n);
  }

  /** A complete valid frame is the prescribed frame of its own fields. */
  lemma FrameIsFrameOf(f: bytes, pkt: Packet)
    requires IsFrame(f, pkt)
    ensures |pkt.vin| == VIN_LENGTH && |pkt.data| == pkt.length < 0x1_0000
    ensures f == FrameOf(pkt.command, pkt.response, pkt.vin, pkt.encryptType, pkt.data)
  {
    var n := |f|;
    BodyIsSlice(f, DataLen(f));
    assert f == [f[0], f[1]] + f[2..n - 1] + [f[n - 1]];
  }

  method CalculateBCC(data: bytes) returns (bcc: byte)
    ensures bcc == BCC(data)
  {
    bcc := 0;
    for i := 0 to |data|
      invariant bcc == BCC(data[..i])
    {
      assert data[..i + 1][..i] == data[..i];
      bcc := Xor(bcc, data[i]);
    }
    assert data[..|data|] == data;
  }

  /** Go's `copy(dst[at:], src)` for a source that fits; returns the next write position. */
  method CopyInto(dst: array<byte>, at: nat, src: bytes) returns (next: nat)
    requires at + |src| <= dst.Length
    modifies dst
    ensures next == at + |src|
    ensures dst[..next] == old(dst[..at]) + src && dst[next..] == old(dst[at + |src|..])
    ensures dst.Length > next ==> dst[dst.Length - 1] == old(dst[dst.Length - 1])
  {
    forall k | 0 <= k < |src| {
      dst[at + k] := src[k];
    }
    next := at + |src|;
  }

  /** The 24 bytes before the payload. */
  function Header(command: byte, response: byte, vin: bytes, encryptType: byte, dataLen: nat): (h: bytes)
  {
    [START, START, command, response] + vin + [encryptType] + Put16(dataLen)
  }

  lemma HeaderAndBody(command: byte, response: byte, vin: bytes, encryptType: byte, data: bytes)
    ensures var hd := Header(command, response, vin, encryptType, |data|) + data;
            var body := Body(command, response, vin, encryptType, data);
            hd == [START, START] + body && hd[2..] == body
            && FrameOf(command, response, vin, encryptType, data) == hd + [BCC(hd[2..] + [0])]
  {
    var body := Body(command, response, vin, encryptType, data);
    assert [START, START, command, response] == [START, START] + [command, response];
    BCCTrailingZero(body);
  }

  method WriteHeader(pkt: array<byte>, command: byte, vin: bytes, encryptType: byte, dataLen: nat)
    returns (pos: nat)
    requires |vin| == VIN_LENGTH && pkt.Length > HEADER_SIZE
    modifies pkt
    ensures pos == HEADER_SIZE && pkt[..pos] == Header(command, RESP_SUCCESS, vin, encryptType, dataLen)
    ensures pkt[pkt.Length - 1] == old(pkt[pkt.Length - 1])
  {
    pos := CopyInto(pkt, 0, [START, START, command, RESP_SUCCESS]);
    var vinPadded := vin + seq(VIN_LENGTH - |vin|, _ => 0x20);
    assert vinPadded == vin;
    pos := CopyInto(pkt, pos, vinPadded);
    pos := CopyInto(pkt, pos, [encryptType]);
    pos := CopyInto(pkt, pos, Put16(dataLen));
  }

  /** Fills the last byte with the check character of everything after the marker, itself still zero. */
  method AppendBCC(pkt: array<byte>, ghost hd: bytes) returns (pos: nat)
    requires pkt.Length == |hd| + 1 >= 3
    requires pkt[..|hd|] == hd && pkt[|hd|] == 0
    modifies pkt
    ensures pos == pkt.Length && pkt[..] == hd + [BCC(hd[2..] + [0])]
  {
    assert pkt[2..] == hd[2..] + [0];
    var bcc := CalculateBCC(pkt[2..]);
    pos := CopyInto(pkt, pkt.Length - 1, [bcc]);
    assert pkt[..pos] == pkt[..];
  }

  /** The encoder produces the prescribed frame, and refuses exactly the VINs that are not 17 bytes long. */
  method EncodeResponse(command: byte, vin: bytes, encryptType: byte, data: bytes)
    returns (r: Result<bytes, FrameError>)
    ensures r == if |vin| != VIN_LENGTH then Err(InvalidVIN)
                 else Ok(FrameOf(command, RESP_SUCCESS, vin, if encryptType == 0 then ENC_NONE else encryptType, data))
  {
    if |vin| != VIN_LENGTH {
      return Err(InvalidVIN);
    }
    var enc := if encryptType == 0 then ENC_NONE else encryptType;
    var dataLen := |data|;
    var pkt := new byte[HEADER_SIZE + dataLen + 1](_ => 0);
    var pos := WriteHeader(pkt, command, vin, enc, dataLen);
    if dataLen > 0 {
      pos := CopyInto(pkt, pos, data);
    }
    ghost var hd := Header(command, RESP_SUCCESS, vin, enc, dataLen) + data;
    HeaderAndBody(command, RESP_SUCCESS, vin, enc, data);
    pos := AppendBCC(pkt, hd);
    return Ok(pkt[..]);
  }
}
