/** NIP-44 version 2: padding, message keys and the authenticated envelope. */
module Nip44 {
  import opened BitRegrouping
  import opened Bytes
  import opened ChaCha20
  import opened Primitives
  import opened Wrappers

  datatype Error =
    | KeyLength | PlaintextLength | PaddedSize | LengthPrefix | PaddedLength | NonZeroPadding
    | UnsupportedVersion | PayloadSize | Base64 | DecodedSize | UnknownVersion | InvalidMac | Utf8

  // ---- Padded length -------------------------------------------------------------------------

  /** int.bit_length */
  function BitLength(n: nat): nat {
    if n == 0 then 0 else 1 + BitLength(n / 2)
  }

  lemma {:induction false} BitLengthBounds(n: nat)
    ensures n < Pow2(BitLength(n))
    ensures n > 0 ==> Pow2(BitLength(n)) <= 2 * n
  {
    if n > 0 {
      BitLengthBounds(n / 2);
    }
  }

  lemma {:induction false} BitLengthIff(n: nat, k: nat)
    ensures BitLength(n) <= k <==> n < Pow2(k)
  {
    if n > 0 && k > 0 {
      BitLengthIff(n / 2, k - 1);
    }
  }

  /** The padding granule for a length above 32. */
  function Chunk(n: nat): (c: nat)
    requires n >= 1
    ensures c >= 32
  {
    var eighth := Pow2(BitLength(n - 1)) / 8;
    if eighth > 32 then eighth else 32
  }

  function CalcPaddedLen(n: nat): Result<nat, Error> {
    if n < 1 || n > 65535 then Err(PlaintextLength)
    else if n <= 32 then Ok(32)
    else
      var chunk := Chunk(n);
      Ok(chunk * ((n + chunk - 1) / chunk))
  }

  /** The padded length where it is defined. */
  function PaddedLen(n: nat): nat
    requires 1 <= n <= 65535
  {
    CalcPaddedLen(n).value
  }

  /** Rounding up to a multiple. */
  lemma RoundUp(n: nat, c: nat)
    requires c >= 1
    ensures n <= c * ((n + c - 1) / c) < n + c
  {
    var q := (n + c - 1) / c;
    DivideAndMultiply(n + c - 1, c);
    assert q * c == c * q;
  }

  /** Rounding up does not pass a multiple. */
  lemma RoundUpBelow(n: nat, c: nat, k: nat)
    requires c >= 1 && n <= c * k
    ensures c * ((n + c - 1) / c) <= c * k
  {
    var q := (n + c - 1) / c;
    RoundUp(n, c);
    if q > k {
      MulMonotone(c, k + 1, q);
    }
  }

  lemma RoundUpMonotone(m: nat, n: nat, c: nat)
    requires c >= 1 && m <= n
    ensures c * ((m + c - 1) / c) <= c * ((n + c - 1) / c)
  {
    RoundUp(n, c);
    RoundUpBelow(m, c, (n + c - 1) / c);
  }

  lemma {:induction false} Pow2Monotone(a: nat, b: nat)
    requires a <= b
    ensures Pow2(a) <= Pow2(b)
  {
    Pow2Add(a, b - a);
    MulMonotone(Pow2(a), 1, Pow2(b - a));
  }

  lemma SmallPowers()
    ensures Pow2(3) == 8 && Pow2(5) == 32 && Pow2(6) == 64 && Pow2(7) == 128 && Pow2(16) == 65536
  {
    assert Pow2(2) == 4;
    assert Pow2(4) == 16;
    Pow2Add(8, 8);
    Pow2Add(4, 4);
  }

  /** The power of two at or above n is a whole number of granules; a granule is a multiple of 32 and,
      when larger than that, less than a quarter of n. */
  lemma ChunkFits(n: nat) returns (k: nat)
    requires n > 32
    ensures n <= Pow2(BitLength(n - 1)) == Chunk(n) * k
    ensures Chunk(n) % 32 == 0
    ensures Chunk(n) == 32 || 4 * Chunk(n) < n
  {
    var b := BitLength(n - 1);
    BitLengthBounds(n - 1);
    BitLengthIff(n - 1, 5);
    SmallPowers();
    hide BitLength, Pow2;
    if b >= 8 {
      LargePower(b);
      k := 8;
    } else {
      k := if b == 6 then 2 else 4;
    }
  }

  lemma LargePower(b: nat)
    requires b >= 8
    ensures Pow2(b) % 8 == 0 && Pow2(b) / 8 >= 32 && (Pow2(b) / 8) % 32 == 0
  {
    var p := Pow2(b - 8);
    Pow2Add(8, b - 8);
    SmallPowers();
    assert Pow2(8) == 256;
    assert Pow2(b) == 8 * (32 * p);
  }

  /** Padding makes room, in whole granules of 32, and wastes less than 32 bytes or a quarter. */
  lemma PaddedLenBounds(n: nat)
    requires 1 <= n <= 65535
    ensures n <= PaddedLen(n) <= 65536
    ensures 32 <= PaddedLen(n) && PaddedLen(n) % 32 == 0
    ensures PaddedLen(n) - n < 32 || 4 * (PaddedLen(n) - n) < n
  {
    if n > 32 {
      var k := ChunkFits(n);
      var c, b := Chunk(n), BitLength(n - 1);
      assert PaddedLen(n) == c * ((n + c - 1) / c);
      hide Chunk, BitLength, Pow2, CalcPaddedLen, PaddedLen;
      RoundUp(n, c);
      RoundUpBelow(n, c, k);
      MultipleOf32(c, (n + c - 1) / c);
      SmallPowers();
      BitLengthIff(n - 1, 16);
      Pow2Monotone(b, 16);
    }
  }

  lemma MultipleOf32(c: nat, q: nat)
    requires c % 32 == 0
    ensures (c * q) % 32 == 0
  {
    var d := c / 32;
    assert c == 32 * d;
    assert c * q == 32 * (d * q);
    Quotient(d * q, 32, 0);
  }

  lemma {:induction false} BitLengthMonotone(m: nat, n: nat)
    requires m <= n
    ensures BitLength(m) <= BitLength(n)
  {
    if m > 0 {
      BitLengthMonotone(m / 2, n / 2);
    }
  }

  /** A longer plaintext never pads to less. */
  lemma PaddedLenMonotone(m: nat, n: nat)
    requires 1 <= m <= n <= 65535
    ensures PaddedLen(m) <= PaddedLen(n)
  {
    hide BitLength, Pow2, ByteAt, Index;
    PaddedLenBounds(n);
    if m > 32 {
      var a := BitLength(m - 1);
      if a == BitLength(n - 1) {
        RoundUpMonotone(m, n, Chunk(n));
      } else {
        var k := ChunkFits(m);
        RoundUpBelow(m, Chunk(m), k);
        BitLengthIff(m - 1, a);
        BitLengthIff(n - 1, a);
        BitLengthMonotone(m - 1, n - 1);
      }
    }
  }

  /** Beyond 256 bytes a plaintext between two powers of two pads to the next eighth of the upper one. */
  lemma PadsToEighth(n: nat, b: nat) returns (k: nat)
    requires 256 < n <= 65535 && b >= 1 && Pow2(b - 1) < n <= Pow2(b)
    ensures b >= 9 && k >= 1 && Pow2(b - 3) * (k - 1) < n <= Pow2(b - 3) * k == PaddedLen(n)
  {
    hide Pow2, BitLength, Chunk;
    EighthIs(n, b);
    var c := Pow2(b - 3);
    assert PaddedLen(n) == c * ((n + c - 1) / c);
    k := (n + c - 1) / c;
    hide CalcPaddedLen, PaddedLen;
    RoundUp(n, c);
    OneLess(c, k);
  }

  lemma EighthIs(n: nat, b: nat)
    requires 256 < n <= 65535 && b >= 1 && Pow2(b - 1) < n <= Pow2(b)
    ensures b >= 9 && Chunk(n) == Pow2(b - 3)
  {
    assert Pow2(8) == 256 by {
      SmallPowers();
    }
    hide Pow2, BitLength;
    if b <= 8 { Pow2Monotone(b, 8); }
    BitLengthIff(n - 1, b);
    BitLengthIff(n - 1, b - 1);
    LargePower(b);
    Eighth(b);
  }

  lemma Eighth(b: nat)
    requires b >= 3
    ensures Pow2(b) == 8 * Pow2(b - 3)
  {
    assert Pow2(b) == 2 * Pow2(b - 1) && Pow2(b - 1) == 2 * Pow2(b - 2) && Pow2(b - 2) == 2 * Pow2(b - 3);
  }

  /** Up to 256 bytes it pads to the next multiple of 32. */
  lemma PadsTo32(n: nat) returns (k: nat)
    requires 1 <= n <= 256
    ensures k >= 1 && 32 * (k - 1) < n <= 32 * k == PaddedLen(n)
  {
    k := (n + 31) / 32;
    if n > 32 {
      SmallPowers();
      assert Pow2(8) == 256;
      BitLengthIff(n - 1, 8);
      hide BitLength;
      Pow2Monotone(BitLength(n - 1), 8);
    }
  }

  lemma OneLess(c: nat, k: nat)
    requires c >= 1
    ensures c * (k - 1) == c * k - c && (c * k >= 1 ==> k >= 1)
  {
  }

  /** So two plaintexts that end in the same eighth cannot be told apart by their length. */
  lemma SameEighth(m: nat, n: nat, b: nat, k: nat)
    requires 256 < m <= 65535 && 256 < n <= 65535 && b >= 9 && k >= 1
    requires Pow2(b - 1) < m <= Pow2(b) && Pow2(b - 1) < n <= Pow2(b)
    requires Pow2(b - 3) * (k - 1) < m <= Pow2(b - 3) * k && Pow2(b - 3) * (k - 1) < n <= Pow2(b - 3) * k
    ensures PaddedLen(m) == PaddedLen(n) == Pow2(b - 3) * k
  {
    var i := PadsToEighth(m, b);
    var j := PadsToEighth(n, b);
    hide Pow2, PaddedLen;
    OnlyMultiple(Pow2(b - 3), m, i, k);
    OnlyMultiple(Pow2(b - 3), n, j, k);
  }

  lemma OnlyMultiple(c: nat, n: nat, i: nat, k: nat)
    requires i >= 1 && k >= 1 && c * (i - 1) < n <= c * i && c * (k - 1) < n <= c * k
    ensures i == k
  {
    if i < k { MulMonotone(c, i, k - 1); }
    if k < i { MulMonotone(c, k, i - 1); }
  }

  // ---- Padding -------------------------------------------------------------------------------

  function Zeros(n: nat): (z: seq<byte>)
    ensures |z| == n
    ensures forall i :: 0 <= i < n ==> z[i] == 0
  {
    seq(n, _ => 0)
  }

  /** A two-byte length, the bytes, and zeros up to the padded length. */
  function PadBytes(raw: seq<byte>): Result<seq<byte>, Error> {
    match CalcPaddedLen(|raw|)
    case Err(e) => Err(e)
    case Ok(p) =>
      PaddedLenBounds(|raw|);
      Ok(ToBE(|raw|, 2) + raw + Zeros(p - |raw|))
  }

  function UnpadBytes(padded: seq<byte>): Result<seq<byte>, Error> {
    if |padded| < 34 then Err(PaddedSize)
    else
      var n := FromBE(padded[..2]);
      if n < 1 || n > |padded| - 2 then Err(LengthPrefix)
      else
        match CalcPaddedLen(n)
        case Err(e) => Err(e)
        case Ok(p) =>
          if |padded| != 2 + p then Err(PaddedLength)
          else if exists i :: 2 + n <= i < |padded| && padded[i] != 0 then Err(NonZeroPadding)
          else Ok(padded[2..2 + n])
  }

  lemma TwoBytes()
    ensures Pow256(2) == 65536
  {
    assert Pow256(1) == 256;
  }

  /** Unpadding accepts the exact outputs of padding, and gives back what was padded. */
  lemma UnpadIff(padded: seq<byte>, raw: seq<byte>)
    ensures UnpadBytes(padded) == Ok(raw) <==> PadBytes(raw) == Ok(padded)
  {
    hide CalcPaddedLen, FromBE, ToBE;
    TwoBytes();
    if UnpadBytes(padded) == Ok(raw) {
      UnpaddedPads(padded, raw);
    }
    if PadBytes(raw) == Ok(padded) {
      PaddedUnpads(padded, raw);
    }
  }

  lemma UnpaddedPads(padded: seq<byte>, raw: seq<byte>)
    requires UnpadBytes(padded) == Ok(raw)
    ensures PadBytes(raw) == Ok(padded)
  {
    hide CalcPaddedLen, FromBE, ToBE;
    var n := FromBE(padded[..2]);
    ToFromBE(padded[..2]);
    assert |raw| == n;
    assert padded == padded[..2] + padded[2..2 + n] + padded[2 + n..];
    assert padded[2 + n..] == Zeros(|padded| - 2 - n);
  }

  lemma PaddedUnpads(padded: seq<byte>, raw: seq<byte>)
    requires PadBytes(raw) == Ok(padded)
    ensures UnpadBytes(padded) == Ok(raw)
  {
    var n := |raw|;
    assert 1 <= n <= 65535;
    PaddedLenBounds(n);
    hide CalcPaddedLen, FromBE, ToBE;
    TwoBytes();
    FromToBE(n, 2);
    assert padded[..2] == ToBE(n, 2);
    assert padded[2..2 + n] == raw;
  }

  lemma PadSucceedsIff(raw: seq<byte>)
    ensures PadBytes(raw).Ok? <==> 1 <= |raw| <= 65535
    ensures PadBytes(raw).Ok? ==> |PadBytes(raw).value| == 2 + PaddedLen(|raw|)
  {
  }

  // ---- Message keys --------------------------------------------------------------------------

  /** T(n) of RFC 5869 section 2.3. */
  function ExpandBlock(lib: Library, prk: seq<byte>, info: seq<byte>, n: nat): seq<byte>
    requires n <= 255
  {
    if n == 0 then [] else lib.hmac(prk, ExpandBlock(lib, prk, info, n - 1) + info + [ByteAt(n)])
  }

  /** T(1) | ... | T(n) */
  function ExpandBlocks(lib: Library, prk: seq<byte>, info: seq<byte>, n: nat): seq<byte>
    requires n <= 255
  {
    if n == 0 then [] else ExpandBlocks(lib, prk, info, n - 1) + ExpandBlock(lib, prk, info, n)
  }

  lemma {:induction false} ExpandBlocksLength(lib: Library, prk: seq<byte>, info: seq<byte>, n: nat)
    requires lib.DigestLaw() && n <= 255
    ensures |ExpandBlocks(lib, prk, info, n)| == 32 * n
  {
    if n > 0 {
      ExpandBlocksLength(lib, prk, info, n - 1);
    }
  }

  ghost function Okm(lib: Library, prk: seq<byte>, info: seq<byte>, length: nat): (okm: seq<byte>)
    requires lib.DigestLaw() && length <= 255 * 32
    ensures |okm| == length
  {
    ExpandBlocksLength(lib, prk, info, (length + 31) / 32);
    ExpandBlocks(lib, prk, info, (length + 31) / 32)[..length]
  }

  method HkdfExpand(lib: Library, prk: seq<byte>, info: seq<byte>, length: nat) returns (okm: seq<byte>)
    requires lib.DigestLaw() && length <= 255 * 32
    ensures okm == Okm(lib, prk, info, length)
  {
    var out: seq<byte> := [];
    var t: seq<byte> := [];
    var counter := 1;
    while |out| < length
      invariant 1 <= counter && 32 * (counter - 1) < length + 32
      invariant |out| == 32 * (counter - 1)
      invariant out == ExpandBlocks(lib, prk, info, counter - 1)
      invariant t == ExpandBlock(lib, prk, info, counter - 1)
      decreases length - |out|
    {
      t := lib.hmac(prk, t + info + [ByteAt(counter)]);
      out := out + t;
      counter := counter + 1;
    }
    assert counter - 1 == (length + 31) / 32;
    okm := out[..length];
  }

  // ---- The envelope, in bytes ------------------------------------------------------------------

  /** What the envelope of padded bytes is made of. */
  ghost function Seal(lib: Library, padded: seq<byte>, key: seq<byte>, nonce: seq<byte>): (raw: seq<byte>)
    requires lib.DigestLaw() && |nonce| == 32
    ensures |raw| == 65 + |padded| && raw[0] == 2 && raw[1..33] == nonce
  {
    var keys := Okm(lib, key, nonce, 76);
    var ct := Crypt(keys[..32], keys[32..44], padded, 0);
    [2] + nonce + ct + lib.hmac(keys[44..76], nonce + ct)
  }

  ghost function EncryptRaw(lib: Library, raw: seq<byte>, key: seq<byte>, nonce: seq<byte>): Result<seq<byte>, Error>
    requires lib.DigestLaw()
  {
    if |key| != 32 || |nonce| != 32 then Err(KeyLength)
    else
      match PadBytes(raw)
      case Err(e) => Err(e)
      case Ok(padded) => Ok(Seal(lib, padded, key, nonce))
  }

  ghost function DecryptRaw(lib: Library, raw: seq<byte>, key: seq<byte>): Result<seq<byte>, Error>
    requires lib.DigestLaw()
  {
    if |raw| < 99 || |raw| > 65603 then Err(DecodedSize)
    else if raw[0] != 2 then Err(UnknownVersion)
    else if |key| != 32 then Err(KeyLength)
    else
      var nonce, ct, mac := raw[1..33], raw[33..|raw| - 32], raw[|raw| - 32..];
      var keys := Okm(lib, key, nonce, 76);
      if lib.hmac(keys[44..76], nonce + ct) != mac then Err(InvalidMac)
      else UnpadBytes(Crypt(keys[..32], keys[32..44], ct, 0))
  }

  lemma SealOpens(lib: Library, padded: seq<byte>, key: seq<byte>, nonce: seq<byte>)
    requires lib.DigestLaw() && |nonce| == 32
    ensures var raw := Seal(lib, padded, key, nonce);
      var ct := raw[33..|raw| - 32];
      var keys := Okm(lib, key, nonce, 76);
      && raw[|raw| - 32..] == lib.hmac(keys[44..76], nonce + ct)
      && Crypt(keys[..32], keys[32..44], ct, 0) == padded
  {
    hide Okm, Crypt;
    var keys := Okm(lib, key, nonce, 76);
    var ct := Crypt(keys[..32], keys[32..44], padded, 0);
    var mac := lib.hmac(keys[44..76], nonce + ct);
    var raw := Seal(lib, padded, key, nonce);
    assert raw == [2] + nonce + ct + mac;
    assert raw[33..|raw| - 32] == ct;
    assert raw[|raw| - 32..] == mac;
    CryptTwice(keys[..32], keys[32..44], padded, 0);
  }

  lemma OpenedSeals(lib: Library, raw: seq<byte>, key: seq<byte>)
    requires lib.DigestLaw() && |raw| >= 65 && raw[0] == 2
    requires var nonce, ct, mac := raw[1..33], raw[33..|raw| - 32], raw[|raw| - 32..];
      lib.hmac(Okm(lib, key, nonce, 76)[44..76], nonce + ct) == mac
    ensures var nonce, ct := raw[1..33], raw[33..|raw| - 32];
      var keys := Okm(lib, key, nonce, 76);
      raw == Seal(lib, Crypt(keys[..32], keys[32..44], ct, 0), key, nonce)
  {
    hide Okm, Crypt;
    var nonce, ct := raw[1..33], raw[33..|raw| - 32];
    var keys := Okm(lib, key, nonce, 76);
    CryptTwice(keys[..32], keys[32..44], ct, 0);
    assert raw == [raw[0]] + nonce + ct + raw[|raw| - 32..];
  }

  /** Sizes: one version byte, the nonce, the padded plaintext and the code, within the bounds a
      reader checks. */
  lemma EnvelopeSize(lib: Library, m: seq<byte>, key: seq<byte>, nonce: seq<byte>)
    requires lib.DigestLaw() && |key| == |nonce| == 32
    ensures EncryptRaw(lib, m, key, nonce).Ok? <==> 1 <= |m| <= 65535
    ensures EncryptRaw(lib, m, key, nonce).Ok? ==>
      |EncryptRaw(lib, m, key, nonce).value| == 67 + PaddedLen(|m|) && 99 <= 67 + PaddedLen(|m|) <= 65603
  {
    hide PadBytes, Seal;
    PadSucceedsIff(m);
    if 1 <= |m| <= 65535 {
      PaddedLenBounds(|m|);
    }
  }

  /** An envelope decrypts to m exactly when it is the encryption of m under its own nonce: every
      plaintext comes back, and no other byte string is accepted for it. */
  lemma EnvelopeIff(lib: Library, raw: seq<byte>, key: seq<byte>, m: seq<byte>)
    requires lib.DigestLaw() && |key| == 32
    ensures DecryptRaw(lib, raw, key) == Ok(m) <==> |raw| >= 33 && EncryptRaw(lib, m, key, raw[1..33]) == Ok(raw)
  {
    if DecryptRaw(lib, raw, key) == Ok(m) {
      OpenedEncrypts(lib, raw, key, m);
    }
    if |raw| >= 33 && EncryptRaw(lib, m, key, raw[1..33]) == Ok(raw) {
      EncryptedOpens(lib, raw, key, m);
    }
  }

  lemma OpenedEncrypts(lib: Library, raw: seq<byte>, key: seq<byte>, m: seq<byte>)
    requires lib.DigestLaw() && |key| == 32
    requires DecryptRaw(lib, raw, key) == Ok(m)
    ensures EncryptRaw(lib, m, key, raw[1..33]) == Ok(raw)
  {
    hide Okm, Crypt, UnpadBytes, PadBytes, Seal;
    OpenedSeals(lib, raw, key);
    var keys := Okm(lib, key, raw[1..33], 76);
    UnpadIff(Crypt(keys[..32], keys[32..44], raw[33..|raw| - 32], 0), m);
  }

  lemma EncryptedOpens(lib: Library, raw: seq<byte>, key: seq<byte>, m: seq<byte>)
    requires lib.DigestLaw() && |key| == 32
    requires |raw| >= 33 && EncryptRaw(lib, m, key, raw[1..33]) == Ok(raw)
    ensures DecryptRaw(lib, raw, key) == Ok(m)
  {
    hide Okm, Crypt, UnpadBytes, PadBytes, Seal;
    EnvelopeSize(lib, m, key, raw[1..33]);
    hide PaddedLen;
    var padded := PadBytes(m).value;
    UnpadIff(padded, m);
    SealOpens(lib, padded, key, raw[1..33]);
  }

  /** Two bytes of length, high byte first, the message, and zeros up to the padded length. */
  lemma PaddedBytes(m: seq<byte>)
    requires PadBytes(m).Ok?
    ensures var p := PadBytes(m).value;
      && |p| == 2 + PaddedLen(|m|) && |m| <= PaddedLen(|m|)
      && 256 * Index(p[0]) + Index(p[1]) == |m| && p[2..2 + |m|] == m
      && forall i :: 2 + |m| <= i < |p| ==> p[i] == 0
  {
    PadSucceedsIff(m);
    PaddedLenBounds(|m|);
    hide CalcPaddedLen, PaddedLen, ToBE, ByteAt, Index;
    var p := PadBytes(m).value;
    TwoByteLength(|m|);
    assert p[0] == ToBE(|m|, 2)[0] && p[1] == ToBE(|m|, 2)[1];
  }

  lemma TwoByteLength(n: nat)
    requires n < 65536
    ensures 256 * Index(ToBE(n, 2)[0]) + Index(ToBE(n, 2)[1]) == n
  {
    hide ByteAt, Index;
    assert ToBE(n, 2) == ToBE(n / 256, 1) + [ByteAt(n % 256)];
    assert ToBE(n / 256, 1) == [] + [ByteAt(n / 256 % 256)];
    IndexByteAt(n % 256);
    IndexByteAt(n / 256 % 256);
  }

  /** The key material is three chained codes over the nonce (RFC 5869 section 2.3): the first keys the cipher, the
      second begins with the cipher's nonce, the rest keys the authentication code. */
  lemma KeyMaterial(lib: Library, key: seq<byte>, nonce: seq<byte>)
    requires lib.DigestLaw()
    ensures var t1 := lib.hmac(key, nonce + [1]);
            var t2 := lib.hmac(key, t1 + nonce + [2]);
            var t3 := lib.hmac(key, t2 + nonce + [3]);
            var keys := Okm(lib, key, nonce, 76);
      && |t1| == |t2| == |t3| == 32
      && keys[..32] == t1 && keys[32..44] == t2[..12] && keys[44..76] == t2[12..] + t3[..12]
  {
    hide Index;
    assert ByteAt(1) == 1 && ByteAt(2) == 2 && ByteAt(3) == 3;
    hide ByteAt;
    var t1 := lib.hmac(key, nonce + [1]);
    var t2 := lib.hmac(key, t1 + nonce + [2]);
    assert [] + nonce + [1] == nonce + [1];
    assert ExpandBlock(lib, key, nonce, 0) == [];
    assert ExpandBlock(lib, key, nonce, 1) == t1;
    assert ExpandBlock(lib, key, nonce, 2) == t2;
    var t3 := ExpandBlock(lib, key, nonce, 3);
    assert ExpandBlocks(lib, key, nonce, 0) == [];
    assert ExpandBlocks(lib, key, nonce, 1) == t1;
    assert ExpandBlocks(lib, key, nonce, 2) == t1 + t2;
    assert ExpandBlocks(lib, key, nonce, 3) == t1 + t2 + t3;
  }

  /** The envelope of a message, part by part: version 2, the nonce, the padded message ciphered from block 0 on, and
      the code over nonce and ciphertext. */
  lemma EnvelopeParts(lib: Library, m: seq<byte>, key: seq<byte>, nonce: seq<byte>)
    requires lib.DigestLaw() && |key| == |nonce| == 32 && PadBytes(m).Ok?
    ensures var t1 := lib.hmac(key, nonce + [1]);
            var t2 := lib.hmac(key, t1 + nonce + [2]);
            var t3 := lib.hmac(key, t2 + nonce + [3]);
      && |t1| == |t2| == |t3| == 32
      && var ct := Crypt(t1, t2[..12], PadBytes(m).value, 0);
         EncryptRaw(lib, m, key, nonce) == Ok([2] + nonce + ct + lib.hmac(t2[12..] + t3[..12], nonce + ct))
  {
    hide Okm, Crypt, PadBytes;
    KeyMaterial(lib, key, nonce);
  }

  // ---- The envelope, as text -------------------------------------------------------------------

  ghost function EncryptText(lib: Library, plaintext: string, key: seq<byte>, nonce: seq<byte>): Result<string, Error>
    requires lib.DigestLaw()
  {
    match EncryptRaw(lib, lib.encodeUtf8(plaintext), key, nonce)
    case Err(e) => Err(e)
    case Ok(raw) => Ok(lib.encodeBase64(raw))
  }

  ghost function DecryptText(lib: Library, payload: string, key: seq<byte>): Result<string, Error>
    requires lib.DigestLaw()
  {
    if payload == [] || payload[0] == '#' then Err(UnsupportedVersion)
    else if |payload| < 132 || |payload| > 87472 then Err(PayloadSize)
    else
      match lib.decodeBase64(payload)
      case None => Err(Base64)
      case Some(raw) =>
        match DecryptRaw(lib, raw, key)
        case Err(e) => Err(e)
        case Ok(m) =>
          match lib.decodeUtf8(m)
          case None => Err(Utf8)
          case Some(plaintext) => Ok(plaintext)
  }

  /** Which plaintexts can be sent, and that each comes back through every size check. */
  lemma DecryptEncryptText(lib: Library, plaintext: string, key: seq<byte>, nonce: seq<byte>)
    requires lib.Lawful() && |key| == |nonce| == 32
    ensures var sent := EncryptText(lib, plaintext, key, nonce);
      && (sent.Ok? <==> 1 <= |lib.encodeUtf8(plaintext)| <= 65535)
      && (sent.Ok? ==> 132 <= |sent.value| <= 87472 && DecryptText(lib, sent.value, key) == Ok(plaintext))
  {
    hide EncryptRaw, DecryptRaw, CalcPaddedLen;
    var m := lib.encodeUtf8(plaintext);
    EnvelopeSize(lib, m, key, nonce);
    if 1 <= |m| <= 65535 {
      var raw := EncryptRaw(lib, m, key, nonce).value;
      NonceOf(lib, m, key, nonce);
      EnvelopeIff(lib, raw, key, m);
      assert '#' !in lib.encodeBase64(raw);
    }
  }

  lemma NonceOf(lib: Library, m: seq<byte>, key: seq<byte>, nonce: seq<byte>)
    requires lib.DigestLaw()
    requires EncryptRaw(lib, m, key, nonce).Ok?
    ensures |EncryptRaw(lib, m, key, nonce).value| >= 33 && EncryptRaw(lib, m, key, nonce).value[1..33] == nonce
  {
    hide Seal, PadBytes;
  }

  // ---- The procedures of nwc_nostr.py -----------------------------------------------------------

  method MessageKeys(lib: Library, key: seq<byte>, nonce: seq<byte>)
      returns (r: Result<(seq<byte>, seq<byte>, seq<byte>), Error>)
    requires lib.DigestLaw()
    ensures r == if |key| != 32 || |nonce| != 32 then Err(KeyLength)
                 else var keys := Okm(lib, key, nonce, 76); Ok((keys[..32], keys[32..44], keys[44..76]))
  {
    if |key| != 32 || |nonce| != 32 {
      return Err(KeyLength);
    }
    hide Okm;
    var keys := HkdfExpand(lib, key, nonce, 76);
    return Ok((keys[..32], keys[32..44], keys[44..76]));
  }

  method EncryptWithConvKey(lib: Library, plaintext: string, key: seq<byte>, nonce: seq<byte>)
      returns (r: Result<string, Error>)
    requires lib.DigestLaw()
    ensures r == EncryptText(lib, plaintext, key, nonce)
  {
    hide Okm, Crypt, PadBytes;
    var derived := MessageKeys(lib, key, nonce);
    if derived.Err? {
      return Err(derived.error);
    }
    var (cipherKey, cipherNonce, macKey) := derived.value;
    var padded := PadBytes(lib.encodeUtf8(plaintext));
    if padded.Err? {
      return Err(padded.error);
    }
    var ciphered := Chacha20Crypt(cipherKey, cipherNonce, padded.value, 0);
    var ct := ciphered.value;
    var mac := lib.hmac(macKey, nonce + ct);
    return Ok(lib.encodeBase64([2] + nonce + ct + mac));
  }

  method DecryptWithConvKey(lib: Library, payload: string, key: seq<byte>) returns (r: Result<string, Error>)
    requires lib.DigestLaw()
    ensures r == DecryptText(lib, payload, key)
  {
    hide Okm, Crypt, UnpadBytes;
    if payload == [] || payload[0] == '#' {
      return Err(UnsupportedVersion);
    }
    if |payload| < 132 || |payload| > 87472 {
      return Err(PayloadSize);
    }
    var decoded := lib.decodeBase64(payload);
    if decoded.None? {
      return Err(Base64);
    }
    var raw := decoded.value;
    if |raw| < 99 || |raw| > 65603 {
      return Err(DecodedSize);
    }
    if raw[0] != 2 {
      return Err(UnknownVersion);
    }
    var nonce := raw[1..33];
    var ct := raw[33..|raw| - 32];
    var mac := raw[|raw| - 32..];
    var derived := MessageKeys(lib, key, nonce);
    if derived.Err? {
      return Err(derived.error);
    }
    var (cipherKey, cipherNonce, macKey) := derived.value;
    if lib.hmac(macKey, nonce + ct) != mac {
      return Err(InvalidMac);
    }
    var ciphered := Chacha20Crypt(cipherKey, cipherNonce, ct, 0);
    var unpadded := UnpadBytes(ciphered.value);
    if unpadded.Err? {
      return Err(unpadded.error);
    }
    var plaintext := lib.decodeUtf8(unpadded.value);
    return if plaintext.None? then Err(Utf8) else Ok(plaintext.value);
  }
}
