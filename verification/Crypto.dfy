/**
 Payload encryption: PKCS#7 padding (section 6.3 of RFC 5652) and cipher block chaining (section 6.2 of NIST
 SP 800-38A) around a block cipher that is only assumed to be a bijection on blocks for every key. As in the
 source, the key doubles as initialisation vector.
 */
module Crypto {
  import opened Bytes

  const BLOCK: nat := 16

  datatype CryptoError = KeyTooShort | DecryptFailed

  /** The block cipher, as a pair of functions of key and block. */
  datatype BlockCipher = BlockCipher(enc: (bytes, bytes) -> bytes, dec: (bytes, bytes) -> bytes)

  predicate KeyAndBlock(k: bytes, b: bytes)
  {
    |k| == BLOCK && |b| == BLOCK
  }

  ghost predicate IsCipher(c: BlockCipher)
  {
    forall k, b {:trigger KeyAndBlock(k, b)} :: KeyAndBlock(k, b) ==>
      && |c.enc(k, b)| == BLOCK && |c.dec(k, b)| == BLOCK
      && c.dec(k, c.enc(k, b)) == b && c.enc(k, c.dec(k, b)) == b
  }

  // ---- Padding -----------------------------------------------------------------------------------------

  function PadLen(n: nat): (k: byte)
    ensures 1 <= k <= BLOCK && (n + k) % BLOCK == 0
  {
    BLOCK - n % BLOCK
  }

  function Repeat(b: byte, n: nat): (s: bytes)
    ensures |s| == n && forall i :: 0 <= i < n ==> s[i] == b
  {
    seq(n, _ => b)
  }

  function Pad(data: bytes): (p: bytes)
    ensures |p| == |data| + PadLen(|data|) && |p| % BLOCK == 0
  {
    data + Repeat(PadLen(|data|), PadLen(|data|))
  }

  function Unpad(data: bytes): Result<bytes, CryptoError>
  {
    if data == [] then Err(DecryptFailed)
    else
      var padLen := data[|data| - 1];
      if padLen > |data| || padLen == 0 || padLen > BLOCK then Err(DecryptFailed)
      else Ok(data[..|data| - padLen])
  }

  lemma UnpadPad(data: bytes)
    ensures Unpad(Pad(data)) == Ok(data)
  {
    var p, k := Pad(data), PadLen(|data|);
    assert p[|p| - 1] == Repeat(k, k)[k - 1] == k;
    assert p[..|data|] == data;
  }

  /** Every padding byte equals the last one, the only one Unpad looks at. */
  predicate UniformFrom(p: bytes, n: nat)
  {
    forall i :: n <= i < |p| ==> p[i] == p[|p| - 1]
  }

  /** Padding that Unpad takes off is what Pad would put on exactly when all its bytes are equal. */
  lemma RepadsIff(p: bytes)
    requires |p| % BLOCK == 0 && Unpad(p).Ok?
    ensures Pad(Unpad(p).value) == p <==> UniformFrom(p, |Unpad(p).value|)
  {
    var data, k := Unpad(p).value, p[|p| - 1];
    assert |data| == |p| - k && PadLen(|data|) == k;
    if UniformFrom(p, |data|) {
      assert p[|data|..] == Repeat(k, k);
      assert p == data + p[|data|..];
    } else {
      var i :| |data| <= i < |p| && p[i] != k;
      assert Pad(data)[i] == Repeat(k, k)[i - |data|];
    }
  }

  // ---- Block chaining ----------------------------------------------------------------------------------

  function XorBlocks(a: bytes, b: bytes): (r: bytes)
    requires |a| == |b|
    ensures |r| == |a| && forall i :: 0 <= i < |a| ==> r[i] == Xor(a[i], b[i])
  {
    seq(|a|, i requires 0 <= i < |a| => Xor(a[i], b[i]))
  }

  lemma XorBlocksCancel(a: bytes, b: bytes)
    requires |a| == |b|
    ensures XorBlocks(XorBlocks(a, b), b) == a
  {
    forall i | 0 <= i < |a|
      ensures XorBlocks(XorBlocks(a, b), b)[i] == a[i]
    {
      XorCancel(a[i], b[i]);
    }
  }

  /** Encryption of the `n` blocks of `p`. */
  function ChainEncrypt(c: BlockCipher, key: bytes, iv: bytes, p: bytes, n: nat): (e: bytes)
    requires IsCipher(c) && KeyAndBlock(key, iv) && |p| == BLOCK * n
    ensures |e| == |p|
    decreases n
  {
    if n == 0 then []
    else
      var x := XorBlocks(p[..BLOCK], iv);
      assert KeyAndBlock(key, x);
      var b := c.enc(key, x);
      b + ChainEncrypt(c, key, b, p[BLOCK..], n - 1)
  }

  function ChainDecrypt(c: BlockCipher, key: bytes, iv: bytes, e: bytes, n: nat): (p: bytes)
    requires IsCipher(c) && KeyAndBlock(key, iv) && |e| == BLOCK * n
    ensures |p| == |e|
    decreases n
  {
    if n == 0 then []
    else
      var b := e[..BLOCK];
      assert KeyAndBlock(key, b);
      XorBlocks(c.dec(key, b), iv) + ChainDecrypt(c, key, b, e[BLOCK..], n - 1)
  }

  lemma SplitBlock(b: bytes, rest: bytes)
    requires |b| == BLOCK
    ensures (b + rest)[..BLOCK] == b && (b + rest)[BLOCK..] == rest
  {
  }

  lemma {:induction false} DecryptInvertsEncrypt(c: BlockCipher, key: bytes, iv: bytes, p: bytes, n: nat)
    requires IsCipher(c) && KeyAndBlock(key, iv) && |p| == BLOCK * n
    ensures ChainDecrypt(c, key, iv, ChainEncrypt(c, key, iv, p, n), n) == p
    decreases n
  {
    if n > 0 {
      var x := XorBlocks(p[..BLOCK], iv);
      assert KeyAndBlock(key, x);
      var b := c.enc(key, x);
      SplitBlock(b, ChainEncrypt(c, key, b, p[BLOCK..], n - 1));
      DecryptInvertsEncrypt(c, key, b, p[BLOCK..], n - 1);
      XorBlocksCancel(p[..BLOCK], iv);
    }
  }

  lemma {:induction false} EncryptInvertsDecrypt(c: BlockCipher, key: bytes, iv: bytes, e: bytes, n: nat)
    requires IsCipher(c) && KeyAndBlock(key, iv) && |e| == BLOCK * n
    ensures ChainEncrypt(c, key, iv, ChainDecrypt(c, key, iv, e, n), n) == e
    decreases n
  {
    if n > 0 {
      var b := e[..BLOCK];
      assert KeyAndBlock(key, b);
      var d := c.dec(key, b);
      SplitBlock(XorBlocks(d, iv), ChainDecrypt(c, key, b, e[BLOCK..], n - 1));
      XorBlocksCancel(d, iv);
      EncryptInvertsDecrypt(c, key, b, e[BLOCK..], n - 1);
    }
  }

  // ---- EncryptAES128 and DecryptAES128 -----------------------------------------------------------------

  function EncryptAES128(c: BlockCipher, data: bytes, key: bytes): Result<bytes, CryptoError>
    requires IsCipher(c)
  {
    if |key| < BLOCK then Err(KeyTooShort)
    else Ok(ChainEncrypt(c, key[..BLOCK], key[..BLOCK], Pad(data), |Pad(data)| / BLOCK))
  }

  function DecryptAES128(c: BlockCipher, data: bytes, key: bytes): Result<bytes, CryptoError>
    requires IsCipher(c)
  {
    if |key| < BLOCK then Err(KeyTooShort)
    else if |data| % BLOCK != 0 then Err(DecryptFailed)
    else Unpad(ChainDecrypt(c, key[..BLOCK], key[..BLOCK], data, |data| / BLOCK))
  }

  /** Every payload, the empty one included, survives encryption and decryption under the same key. */
  lemma CipherRoundTrip(c: BlockCipher, data: bytes, key: bytes)
    requires IsCipher(c) && |key| >= BLOCK
    ensures var e := EncryptAES128(c, data, key);
            && e.Ok? && |e.value| == |data| + PadLen(|data|)
            && DecryptAES128(c, e.value, key) == Ok(data)
  {
    DecryptInvertsEncrypt(c, key[..BLOCK], key[..BLOCK], Pad(data), |Pad(data)| / BLOCK);
    UnpadPad(data);
  }

  /** A decrypted payload is shorter than its ciphertext, which is a whole number of blocks. */
  lemma DecryptedIsShorter(c: BlockCipher, data: bytes, key: bytes)
    requires IsCipher(c) && DecryptAES128(c, data, key).Ok?
    ensures |data| % BLOCK == 0 && |data| - BLOCK <= |DecryptAES128(c, data, key).value| < |data|
  {
  }

  /**
   Only the last padding byte is checked: a ciphertext that decrypts is the encryption of what it decrypts to
   exactly when every plaintext byte after the payload equals the last one.
   */
  lemma ReencryptsIff(c: BlockCipher, e: bytes, key: bytes)
    requires IsCipher(c) && DecryptAES128(c, e, key).Ok?
    ensures var data := DecryptAES128(c, e, key).value;
            EncryptAES128(c, data, key) == Ok(e)
            <==> UniformFrom(ChainDecrypt(c, key[..BLOCK], key[..BLOCK], e, |e| / BLOCK), |data|)
  {
    var k := key[..BLOCK];
    var data := DecryptAES128(c, e, key).value;
    EncryptInvertsDecrypt(c, k, k, e, |e| / BLOCK);
    DecryptInvertsEncrypt(c, k, k, Pad(data), |Pad(data)| / BLOCK);
    RepadsIff(ChainDecrypt(c, k, k, e, |e| / BLOCK));
  }

  /** Under every key some block decrypts although it is the encryption of nothing: fourteen zeros padded with 0, 2. */
  lemma BadPaddingDecrypts(c: BlockCipher, key: bytes) returns (e: bytes)
    requires IsCipher(c) && |key| >= BLOCK
    ensures DecryptAES128(c, e, key) == Ok(Repeat(0, 14))
    ensures forall data :: EncryptAES128(c, data, key) != Ok(e)
  {
    var k, p := key[..BLOCK], Repeat(0, 15) + [2];
    e := ChainEncrypt(c, k, k, p, 1);
    DecryptInvertsEncrypt(c, k, k, p, 1);
    assert Unpad(p) == Ok(p[..14]) && p[..14] == Repeat(0, 14);
    assert !UniformFrom(p, 14) by { assert p[14] == 0 && p[15] == 2; }
    ReencryptsIff(c, e, key);
    forall data
      ensures EncryptAES128(c, data, key) != Ok(e)
    {
      CipherRoundTrip(c, data, key);
    }
  }

  // ---- Key derivation ----------------------------------------------------------------------------------

  function DerivedKey(token: bytes): (key: bytes)
    ensures |key| == BLOCK
  {
    if |token| >= BLOCK then token[..BLOCK] else token + Repeat(0, BLOCK - |token|)
  }

  method DeriveAESKey(token: bytes) returns (key: bytes)
    ensures key == DerivedKey(token)
  {
    var a := new byte[BLOCK](_ => 0);
    var n := if |token| < BLOCK then |token| else BLOCK;
    forall i | 0 <= i < n {
      a[i] := token[i];
    }
    for i := n to BLOCK
      invariant forall k :: 0 <= k < n ==> a[k] == token[k]
      invariant forall k :: n <= k < i ==> a[k] == 0
    {
      a[i] := 0;
    }
    key := a[..];
  }
}
