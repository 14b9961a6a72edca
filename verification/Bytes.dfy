/** Bytes, big-endian integers, exclusive-or and the error-carrying results shared by every module. */
module Bytes {

  type byte = x: int | 0 <= x < 256

  type bytes = seq<byte>

  datatype Option<+T> = None | Some(value: T)

  datatype Result<+T, +E> = Ok(value: T) | Err(error: E)

  /** Exclusive-or of two bytes, as Go's `^` on `byte`. */
  function Xor(a: byte, b: byte): (r: byte)
  {
    ((a as bv8) ^ (b as bv8)) as int
  }

  lemma ByteBits(v: bv8)
    ensures (v as int) as bv8 == v
  {
  }

  lemma XorZero(a: byte)
    ensures Xor(a, 0) == a == Xor(0, a)
  {
    assert (a as bv8) ^ 0 == a as bv8;
    assert 0 ^ (a as bv8) == a as bv8;
  }

  lemma XorComm(a: byte, b: byte)
    ensures Xor(a, b) == Xor(b, a)
  {
  }

  lemma BitsAssoc(x: bv8, y: bv8, z: bv8)
    ensures (x ^ y) ^ z == x ^ (y ^ z)
  {
  }

  lemma XorBits(a: byte, b: byte)
    ensures Xor(a, b) as bv8 == (a as bv8) ^ (b as bv8)
  {
    ByteBits((a as bv8) ^ (b as bv8));
  }

  lemma XorAssoc(a: byte, b: byte, c: byte)
    ensures Xor(Xor(a, b), c) == Xor(a, Xor(b, c))
  {
    XorBits(a, b);
    XorBits(b, c);
    BitsAssoc(a as bv8, b as bv8, c as bv8);
  }

  lemma XorSelf(b: byte)
    ensures Xor(b, b) == 0
  {
    assert (b as bv8) ^ (b as bv8) == 0;
  }

  lemma XorCancel(a: byte, b: byte)
    ensures Xor(Xor(a, b), b) == a
  {
    XorAssoc(a, b, b);
    XorSelf(b);
    XorZero(a);
  }

  /** Exclusive-or with a fixed byte is injective. */
  lemma XorInjective(a: byte, b: byte, c: byte)
    requires Xor(a, c) == Xor(b, c)
    ensures a == b
  {
    XorCancel(a, c);
    XorCancel(b, c);
  }

  /** Two bytes of `b` at `i`, big-endian. */
  function U16(b: bytes, i: nat): (n: nat)
    requires i + 2 <= |b|
    ensures n < 0x1_0000
  {
    (b[i] as int) * 256 + b[i + 1]
  }

  /** Four bytes of `b` at `i`, big-endian. */
  function U32(b: bytes, i: nat): (n: nat)
    requires i + 4 <= |b|
    ensures n < 0x1_0000_0000
  {
    U16(b, i) * 0x1_0000 + U16(b, i + 2)
  }

  /** Big-endian encoding of `uint16(n)`: a length that does not fit is truncated. */
  function Put16(n: nat): (b: bytes)
    ensures |b| == 2 && U16(b, 0) == n % 0x1_0000
  {
    var short := n % 0x1_0000;
    var hi: byte := short / 256;
    var lo: byte := short % 256;
    [hi, lo]
  }

  lemma Put16Reads(data: bytes, pos: nat)
    requires pos + 2 <= |data|
    ensures Put16(U16(data, pos)) == data[pos..pos + 2] == [data[pos], data[pos + 1]]
  {
  }

  /** Big-endian encoding of a 32-bit value. */
  function Put32(n: nat): (b: bytes)
    requires n < 0x1_0000_0000
    ensures |b| == 4 && U32(b, 0) == n
  {
    Put16(n / 0x1_0000) + Put16(n % 0x1_0000)
  }

  /** Concatenation of a list of byte strings. */
  function Flat(parts: seq<bytes>): (b: bytes)
  {
    if parts == [] then [] else parts[0] + Flat(parts[1..])
  }

  lemma {:induction false} FlatSnoc(parts: seq<bytes>, last: bytes)
    ensures Flat(parts + [last]) == Flat(parts) + last
  {
    if parts == [] {
      assert Flat([last]) == last + Flat([last][1..]);
    } else {
      FlatSnoc(parts[1..], last);
      assert (parts + [last])[1..] == parts[1..] + [last];
    }
  }

  /** A slice of a slice. */
  lemma SubSlice(q: bytes, lo: nat, hi: nat, a: nat, b: nat)
    requires a <= b && lo + b <= hi <= |q|
    ensures q[lo..hi][a..b] == q[lo + a..lo + b]
  {
    var l, r := q[lo..hi][a..b], q[lo + a..lo + b];
    assert |l| == |r| && forall k :: 0 <= k < |l| ==> l[k] == r[k];
  }

  /** Adjacent slices join. */
  lemma JoinSlices(q: bytes, a: nat, b: nat, c: nat)
    requires a <= b <= c <= |q|
    ensures q[a..b] + q[b..c] == q[a..c]
  {
  }

  lemma Assoc(a: bytes, b: bytes, c: bytes)
    ensures a + (b + c) == a + b + c
  {
  }

  /** Moving an element from the front of one list to the back of another. */
  lemma SnocCons<T>(a: seq<T>, x: T, b: seq<T>)
    ensures a + ([x] + b) == (a + [x]) + b
  {
  }

  lemma DropOfConcat(p: bytes, i: nat, q: bytes)
    requires i <= |p|
    ensures (p + q)[i..] == p[i..] + q
  {
  }

  /** The middle and the end of a concatenation. */
  lemma Middle(a: bytes, b: bytes, c: bytes)
    ensures (a + b + c)[|a|..|a| + |b|] == b && (a + b + c)[|a| + |b|..] == c
  {
  }

  // ---- Bytes at a position -----------------------------------------------------------------------------

  /** `s` lies in `data` at `pos`. */
  predicate At(data: bytes, pos: nat, s: bytes)
  {
    pos + |s| <= |data| && data[pos..pos + |s|] == s
  }

  lemma AtIndex(data: bytes, pos: nat, s: bytes, i: nat)
    requires At(data, pos, s) && i < |s|
    ensures data[pos + i] == s[i]
  {
    assert data[pos + i] == data[pos..pos + |s|][i];
  }

  lemma AtWhole(data: bytes)
    ensures At(data, 0, data)
  {
    assert data[0..|data|] == data;
  }

  lemma AtSplit(data: bytes, pos: nat, a: bytes, b: bytes)
    requires At(data, pos, a + b)
    ensures At(data, pos, a) && At(data, pos + |a|, b)
  {
    var s := data[pos..pos + |a| + |b|];
    assert s[..|a|] == a && s[|a|..] == b;
    SubSlice(data, pos, pos + |a| + |b|, 0, |a|);
    SubSlice(data, pos, pos + |a| + |b|, |a|, |a| + |b|);
  }

  lemma AtHead(data: bytes, pos: nat, b: byte, tail: bytes)
    requires At(data, pos, [b] + tail)
    ensures data[pos] == b && At(data, pos + 1, tail)
  {
    AtSplit(data, pos, [b], tail);
    AtIndex(data, pos, [b], 0);
  }

  lemma AtU16(data: bytes, pos: nat, n: nat)
    requires n < 0x1_0000 && At(data, pos, Put16(n))
    ensures U16(data, pos) == n
  {
    AtIndex(data, pos, Put16(n), 0);
    AtIndex(data, pos, Put16(n), 1);
  }

  lemma AtU32(data: bytes, pos: nat, n: nat)
    requires n < 0x1_0000_0000 && At(data, pos, Put32(n))
    ensures U32(data, pos) == n
  {
    AtSplit(data, pos, Put16(n / 0x1_0000), Put16(n % 0x1_0000));
    AtU16(data, pos, n / 0x1_0000);
    AtU16(data, pos + 2, n % 0x1_0000);
  }
}
