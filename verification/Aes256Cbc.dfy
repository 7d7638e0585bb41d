/** AES-256 in cipher block chaining mode with PKCS#7 padding. */
module Aes256Cbc {
  import opened Aes256
  import opened AesSbox
  import opened Bytes
  import opened Wrappers

  // ---- Padding -----------------------------------------------------------------------------

  function PadLength(n: nat): (k: nat)
    ensures 1 <= k <= 16 && (n + k) % 16 == 0
  {
    16 - n % 16
  }

  function Repeated(b: byte, n: nat): (s: seq<byte>)
    ensures |s| == n
    ensures forall i :: 0 <= i < n ==> s[i] == b
  {
    seq(n, _ => b)
  }

  function Pad(m: seq<byte>): (padded: seq<byte>)
    ensures |padded| % 16 == 0 && |m| < |padded| <= |m| + 16
  {
    m + Repeated(ByteAt(PadLength(|m|)), PadLength(|m|))
  }

  function Unpad(out: seq<byte>): Result<seq<byte>, Error>
    requires |out| >= 16
  {
    var k := Index(out[|out| - 1]);
    if k < 1 || k > 16 then Err(InvalidPadding)
    else if exists i :: |out| - k <= i < |out| && out[i] != out[|out| - 1] then Err(CorruptedPadding)
    else Ok(out[..|out| - k])
  }

  /** What is accepted is exactly what padding makes. */
  lemma UnpadIff(out: seq<byte>, m: seq<byte>)
    requires |out| >= 16 && |out| % 16 == 0
    ensures Unpad(out) == Ok(m) <==> out == Pad(m)
  {
    hide ByteAt, Index;
    if out == Pad(m) {
      IndexByteAt(PadLength(|m|));
    }
    if Unpad(out) == Ok(m) {
      var k := Index(out[|out| - 1]);
      ByteAtIndex(out[|out| - 1]);
      assert (|m| + k) % 16 == 0;
      assert PadLength(|m|) == k;
      assert out[|out| - k..] == Repeated(ByteAt(k), k);
      assert out == m + out[|out| - k..];
    }
  }

  // ---- Chaining ----------------------------------------------------------------------------

  function XorBlock(a: block, b: block): block {
    XorBytes(a, b)
  }

  lemma XorBack(a: block, b: block)
    ensures XorBlock(XorBlock(a, b), b) == a
  {
    hide XorBytes;
    XorTwice(a, b);
  }

  /** Encryption under a block cipher e. */
  function CbcEncrypt(e: block -> block, prev: block, data: seq<byte>): (ct: seq<byte>)
    requires |data| % 16 == 0
    ensures |ct| == |data|
    decreases |data|
  {
    if data == [] then []
    else
      var c: seq<byte> := e(XorBlock(data[..16], prev));
      c + CbcEncrypt(e, c, data[16..])
  }

  /** Decryption under a block cipher's inverse d. */
  function CbcDecrypt(d: block -> block, prev: block, ct: seq<byte>): (data: seq<byte>)
    requires |ct| % 16 == 0
    ensures |data| == |ct|
    decreases |ct|
  {
    if ct == [] then []
    else
      var p: seq<byte> := XorBlock(d(ct[..16]), prev);
      p + CbcDecrypt(d, ct[..16], ct[16..])
  }

  ghost predicate Undoes(d: block -> block, e: block -> block) {
    forall x: block :: d(e(x)) == x
  }

  lemma {:induction false} CbcDecryptEncrypt(e: block -> block, d: block -> block, prev: block, data: seq<byte>)
    requires Undoes(d, e)
    requires |data| % 16 == 0
    ensures CbcDecrypt(d, prev, CbcEncrypt(e, prev, data)) == data
    decreases |data|
  {
    hide XorBlock;
    if data != [] {
      var p := data[..16];
      var c: seq<byte> := e(XorBlock(p, prev));
      var rest := CbcEncrypt(e, c, data[16..]);
      assert CbcEncrypt(e, prev, data) == c + rest;
      assert (c + rest)[..16] == c && (c + rest)[16..] == rest;
      XorBack(p, prev);
      CbcDecryptEncrypt(e, d, c, data[16..]);
    }
  }

  lemma {:induction false} CbcEncryptDecrypt(e: block -> block, d: block -> block, prev: block, ct: seq<byte>)
    requires Undoes(e, d)
    requires |ct| % 16 == 0
    ensures CbcEncrypt(e, prev, CbcDecrypt(d, prev, ct)) == ct
    decreases |ct|
  {
    hide XorBlock;
    if ct != [] {
      var c := ct[..16];
      var p: seq<byte> := XorBlock(d(c), prev);
      var rest := CbcDecrypt(d, c, ct[16..]);
      assert CbcDecrypt(d, prev, ct) == p + rest;
      assert (p + rest)[..16] == p && (p + rest)[16..] == rest;
      XorBack(d(c), prev);
      CbcEncryptDecrypt(e, d, c, ct[16..]);
    }
  }

  function BlockAt(data: seq<byte>, i: nat): block
    requires 16 * i + 16 <= |data|
  {
    data[16 * i..16 * i + 16]
  }

  /** SP 800-38A section 6.2: each ciphertext block encrypts the sum of its plaintext block and the
      ciphertext block before, the initialization vector standing before the first. */
  lemma {:induction false} CbcChain(e: block -> block, iv: block, data: seq<byte>, i: nat)
    requires |data| % 16 == 0
    requires 16 * i + 16 <= |data|
    ensures var ct := CbcEncrypt(e, iv, data);
      BlockAt(ct, i) == e(XorBlock(BlockAt(data, i), if i == 0 then iv else BlockAt(ct, i - 1)))
    decreases i
  {
    hide XorBlock;
    var c: seq<byte> := e(XorBlock(data[..16], iv));
    var rest := CbcEncrypt(e, c, data[16..]);
    var ct := CbcEncrypt(e, iv, data);
    assert ct == c + rest;
    if i == 0 {
      assert BlockAt(ct, 0) == c;
    } else {
      CbcChain(e, c, data[16..], i - 1);
      assert BlockAt(ct, i) == BlockAt(rest, i - 1);
      assert BlockAt(data, i) == BlockAt(data[16..], i - 1);
      if i == 1 {
        assert BlockAt(ct, 0) == c;
      } else {
        assert BlockAt(ct, i - 1) == BlockAt(rest, i - 2);
      }
    }
  }

  // ---- The cipher --------------------------------------------------------------------------

  function Cipher(rks: seq<block>): block -> block
    requires IsKeySchedule(rks)
  {
    x => EncryptBlock(x, rks)
  }

  function Decipher(rks: seq<block>): block -> block
    requires IsKeySchedule(rks)
  {
    x => DecryptBlock(x, rks)
  }

  lemma CipherUndone(rks: seq<block>)
    requires IsKeySchedule(rks)
    ensures Undoes(Decipher(rks), Cipher(rks))
    ensures Undoes(Cipher(rks), Decipher(rks))
  {
    hide EncryptBlock, DecryptBlock;
    forall x: block ensures Decipher(rks)(Cipher(rks)(x)) == x && Cipher(rks)(Decipher(rks)(x)) == x {
      DecryptEncryptBlock(x, rks);
      EncryptDecryptBlock(x, rks);
    }
  }

  // ---- Messages ----------------------------------------------------------------------------

  function EncryptMessage(key: seq<byte>, iv: seq<byte>, plaintext: seq<byte>): Result<seq<byte>, Error> {
    if |iv| != 16 then Err(IvLength)
    else if |key| != 32 then Err(KeyLength)
    else Ok(CbcEncrypt(Cipher(KeySchedule(key)), iv, Pad(plaintext)))
  }

  function DecryptMessage(key: seq<byte>, iv: seq<byte>, ciphertext: seq<byte>): Result<seq<byte>, Error> {
    if |iv| != 16 then Err(IvLength)
    else if ciphertext == [] || |ciphertext| % 16 != 0 then Err(CiphertextLength)
    else if |key| != 32 then Err(KeyLength)
    else Unpad(CbcDecrypt(Decipher(KeySchedule(key)), iv, ciphertext))
  }

  method Aes256CbcEncrypt(key: seq<byte>, iv: seq<byte>, plaintext: seq<byte>) returns (r: Result<seq<byte>, Error>)
    ensures r == EncryptMessage(key, iv, plaintext)
  {
    hide KeySchedule, CbcEncrypt, ByteAt, Cipher;
    if |iv| != 16 {
      return Err(IvLength);
    }
    var expanded := ExpandKey(key);
    if expanded.Err? {
      return Err(expanded.error);
    }
    var k := 16 - |plaintext| % 16;
    var padded := plaintext + Repeated(ByteAt(k), k);
    assert padded == Pad(plaintext);
    var out := EncryptBlocks(expanded.value, iv, padded);
    return Ok(out);
  }

  method EncryptBlocks(rks: seq<block>, iv: block, padded: seq<byte>) returns (out: seq<byte>)
    requires IsKeySchedule(rks) && |padded| % 16 == 0
    ensures out == CbcEncrypt(Cipher(rks), iv, padded)
  {
    hide CbcEncrypt, EncryptBlock, XorBlock;
    out := [];
    var prev: block := iv;
    var i := 0;
    while i < |padded|
      invariant 0 <= i <= |padded| && i % 16 == 0
      invariant out + CbcEncrypt(Cipher(rks), prev, padded[i..]) == CbcEncrypt(Cipher(rks), iv, padded)
    {
      CbcEncryptStep(Cipher(rks), prev, padded, i);
      var blk := XorBlock(padded[i..i + 16], prev);
      var enc := Encrypt(blk, rks);
      AppendStep(out, enc, CbcEncrypt(Cipher(rks), enc, padded[i + 16..]));
      out := out + enc;
      prev := enc;
      i := i + 16;
    }
    assert padded[i..] == [] && out + [] == out;
  }

  lemma CbcEncryptStep(e: block -> block, prev: block, data: seq<byte>, i: nat)
    requires |data| % 16 == 0
    requires i < |data| && i % 16 == 0
    ensures var c: seq<byte> := e(XorBlock(data[i..i + 16], prev));
      CbcEncrypt(e, prev, data[i..]) == c + CbcEncrypt(e, c, data[i + 16..])
  {
    hide XorBlock;
    assert data[i..][..16] == data[i..i + 16] && data[i..][16..] == data[i + 16..];
  }

  lemma AppendStep(out: seq<byte>, x: seq<byte>, rest: seq<byte>)
    ensures out + (x + rest) == (out + x) + rest
  {
  }

  method Aes256CbcDecrypt(key: seq<byte>, iv: seq<byte>, ciphertext: seq<byte>) returns (r: Result<seq<byte>, Error>)
    ensures r == DecryptMessage(key, iv, ciphertext)
  {
    hide KeySchedule, CbcDecrypt, Index, Decipher;
    if |iv| != 16 {
      return Err(IvLength);
    }
    if ciphertext == [] || |ciphertext| % 16 != 0 {
      return Err(CiphertextLength);
    }
    var expanded := ExpandKey(key);
    if expanded.Err? {
      return Err(expanded.error);
    }
    var out := DecryptBlocks(expanded.value, iv, ciphertext);
    var k := Index(out[|out| - 1]);
    if k < 1 || k > 16 {
      return Err(InvalidPadding);
    }
    if exists i :: |out| - k <= i < |out| && out[i] != out[|out| - 1] {
      return Err(CorruptedPadding);
    }
    return Ok(out[..|out| - k]);
  }

  method DecryptBlocks(rks: seq<block>, iv: block, ciphertext: seq<byte>) returns (out: seq<byte>)
    requires IsKeySchedule(rks) && |ciphertext| % 16 == 0
    ensures out == CbcDecrypt(Decipher(rks), iv, ciphertext)
  {
    hide CbcDecrypt, DecryptBlock, XorBlock;
    out := [];
    var prev: block := iv;
    var i := 0;
    while i < |ciphertext|
      invariant 0 <= i <= |ciphertext| && i % 16 == 0
      invariant out + CbcDecrypt(Decipher(rks), prev, ciphertext[i..]) == CbcDecrypt(Decipher(rks), iv, ciphertext)
    {
      CbcDecryptStep(Decipher(rks), prev, ciphertext, i);
      var blk: block := ciphertext[i..i + 16];
      var dec := Decrypt(blk, rks);
      AppendStep(out, XorBlock(dec, prev), CbcDecrypt(Decipher(rks), blk, ciphertext[i + 16..]));
      out := out + XorBlock(dec, prev);
      prev := blk;
      i := i + 16;
    }
    assert ciphertext[i..] == [] && out + [] == out;
  }

  lemma CbcDecryptStep(d: block -> block, prev: block, ct: seq<byte>, i: nat)
    requires |ct| % 16 == 0
    requires i < |ct| && i % 16 == 0
    ensures var p: seq<byte> := XorBlock(d(ct[i..i + 16]), prev);
      CbcDecrypt(d, prev, ct[i..]) == p + CbcDecrypt(d, ct[i..i + 16], ct[i + 16..])
  {
    hide XorBlock;
    assert ct[i..][..16] == ct[i..i + 16] && ct[i..][16..] == ct[i + 16..];
  }

  /** Under a usable key and vector, decryption returns m for one ciphertext and no other: the one
      encryption makes of m. Every plaintext comes back, and nothing is accepted that was not made so. */
  lemma DecryptIff(key: seq<byte>, iv: seq<byte>, ciphertext: seq<byte>, m: seq<byte>)
    requires |key| == 32 && |iv| == 16
    ensures DecryptMessage(key, iv, ciphertext) == Ok(m) <==> EncryptMessage(key, iv, m) == Ok(ciphertext)
  {
    hide KeySchedule, CbcEncrypt, CbcDecrypt, Pad, Unpad, Cipher, Decipher, Undoes;
    var e, d := Cipher(KeySchedule(key)), Decipher(KeySchedule(key));
    CipherUndone(KeySchedule(key));
    if DecryptMessage(key, iv, ciphertext) == Ok(m) {
      UnpadIff(CbcDecrypt(d, iv, ciphertext), m);
      CbcEncryptDecrypt(e, d, iv, ciphertext);
    }
    if EncryptMessage(key, iv, m) == Ok(ciphertext) {
      CbcDecryptEncrypt(e, d, iv, Pad(m));
      UnpadIff(Pad(m), m);
    }
  }

  /** The round trip, with the length of what travels. */
  lemma DecryptEncryptMessage(key: seq<byte>, iv: seq<byte>, m: seq<byte>)
    requires |key| == 32 && |iv| == 16
    ensures EncryptMessage(key, iv, m).Ok?
    ensures |EncryptMessage(key, iv, m).value| == 16 * (|m| / 16 + 1)
    ensures DecryptMessage(key, iv, EncryptMessage(key, iv, m).value) == Ok(m)
  {
    hide KeySchedule, CbcEncrypt, DecryptMessage, Pad, Cipher;
    DecryptIff(key, iv, EncryptMessage(key, iv, m).value, m);
  }

  /** PKCS#7: the padded message is the message and k bytes of value k, up to the next multiple of 16. */
  lemma PaddedBytes(m: seq<byte>)
    ensures var k := 16 - |m| % 16;
      |Pad(m)| == |m| + k && Pad(m)[..|m|] == m && forall i :: |m| <= i < |Pad(m)| ==> Index(Pad(m)[i]) == k
  {
    hide ByteAt, Index;
    IndexByteAt(PadLength(|m|));
  }

  /** A message is its padded blocks, chained under the key's own expansion from the vector on. */
  lemma MessageChain(key: seq<byte>, iv: seq<byte>, m: seq<byte>, i: nat)
    requires |key| == 32 && |iv| == 16 && i <= |m| / 16
    ensures var ct := EncryptMessage(key, iv, m);
      && ct.Ok? && |ct.value| == |Pad(m)| == 16 * (|m| / 16 + 1)
      && BlockAt(ct.value, i) == EncryptBlock(XorBlock(BlockAt(Pad(m), i), if i == 0 then iv else BlockAt(ct.value, i - 1)),
                                              KeySchedule(key))
  {
    hide KeySchedule, CbcEncrypt, Pad, EncryptBlock, XorBlock;
    PaddedBytes(m);
    CbcChain(Cipher(KeySchedule(key)), iv, Pad(m), i);
  }
}
