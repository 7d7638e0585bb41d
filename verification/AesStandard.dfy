/** The AES-256 cipher and its key expansion as FIPS 197 states them, byte by byte. */
module AesStandard {
  import opened Aes256
  import opened AesSbox
  import opened Bytes
  import opened Gf256

  /** Doubling modulo x^8 + x^4 + x^3 + x + 1 (section 4.2.1). */
  lemma Doubling(a: byte)
    ensures Xtime(a) == if a < 0x80 then a << 1 else (a << 1) ^ 0x1B
  {
  }

  /** 2 a + 3 b + c + d (section 5.1.3). */
  lemma RowIs(a: byte, b: byte, c: byte, d: byte)
    ensures MixRow(a, b, c, d) == Xtime(a) ^ (b ^ Xtime(b)) ^ c ^ d
  {
    hide Xtime;
    PlainSum(Xtime(a), b, Xtime(b), c, d);
    hide Xor, Sum4;
  }

  lemma PlainSum(x: byte, y: byte, z: byte, v: byte, w: byte)
    ensures Sum4(x, Xor(y, z), v, w) == x ^ (y ^ z) ^ v ^ w
  {
  }

  // ---- The cipher (section 5.1) --------------------------------------------------------------

  /** Column c of t is that of s after the substitution, the shift of the rows (row i comes from i columns
      further on), the mixing of the column and the addition of the round key. */
  ghost predicate Mixed(s: block, rk: block, t: block, c: nat)
    requires c < 4
  {
    var b0, b1 := Sub(s[4 * c]), Sub(s[4 * ((c + 1) % 4) + 1]);
    var b2, b3 := Sub(s[4 * ((c + 2) % 4) + 2]), Sub(s[4 * ((c + 3) % 4) + 3]);
    && t[4 * c] == Xor(MixRow(b0, b1, b2, b3), rk[4 * c])
    && t[4 * c + 1] == Xor(MixRow(b1, b2, b3, b0), rk[4 * c + 1])
    && t[4 * c + 2] == Xor(MixRow(b2, b3, b0, b1), rk[4 * c + 2])
    && t[4 * c + 3] == Xor(MixRow(b3, b0, b1, b2), rk[4 * c + 3])
  }

  lemma ShiftedColumn(s: block, c: nat)
    requires c < 4
    ensures Column(SubShift(s), c) == [Sub(s[4 * c]), Sub(s[4 * ((c + 1) % 4) + 1]),
                                       Sub(s[4 * ((c + 2) % 4) + 2]), Sub(s[4 * ((c + 3) % 4) + 3])]
  {
    hide Sub, Column, Shifted;
    ColumnIs(SubShift(s), c);
    ShiftedTable();
  }

  lemma RoundMixes(s: block, rk: block, c: nat)
    requires c < 4
    ensures Mixed(s, rk, EncryptRound(s, rk), c)
  {
    hide Sub, SubShift, MixRow, MixColumns, MixColumn, Xtime, Column, Xor;
    ShiftedColumn(s, c);
    var b, m := Column(SubShift(s), c), MixColumns(SubShift(s));
    MixedColumn(SubShift(s), c);
    MixColumnRows(b);
    ColumnIs(m, c);
  }

  ghost predicate AllMixed(s: block, rk: block, t: block) {
    forall c: nat :: c < 4 ==> Mixed(s, rk, t, c)
  }

  lemma OneRound(s: block, rk: block, t: block)
    requires AllMixed(s, rk, t)
    ensures EncryptRound(s, rk) == t
  {
    hide Sub, EncryptRound, MixRow, Xor, Column;
    var w := EncryptRound(s, rk);
    forall c: nat | c < 4 ensures Column(w, c) == Column(t, c) {
      RoundMixes(s, rk, c);
      assert Mixed(s, rk, t, c);
      ColumnIs(w, c);
      ColumnIs(t, c);
    }
    ColumnsDetermine(w, t);
  }

  /** The states of the cipher: the input plus the first round key, then thirteen rounds. */
  ghost predicate Rounds(input: block, rks: seq<block>, states: seq<block>)
    requires IsKeySchedule(rks)
  {
    && |states| == 14
    && (forall i :: 0 <= i < 16 ==> states[0][i] == Xor(input[i], rks[0][i]))
    && forall r: nat :: 1 <= r < 14 ==> AllMixed(states[r - 1], rks[r], states[r])
  }

  lemma {:induction false} StateAfter(input: block, rks: seq<block>, states: seq<block>, r: nat)
    requires IsKeySchedule(rks) && Rounds(input, rks, states) && r < 14
    ensures EncryptRounds(input, rks, r) == states[r]
  {
    hide EncryptRound, AllMixed, Xor;
    if r > 0 {
      StateAfter(input, rks, states, r - 1);
      OneRound(states[r - 1], rks[r], states[r]);
    }
  }

  /** Column c of t is that of s after the substitution, the shift and the addition: the last round. */
  ghost predicate Unmixed(s: block, rk: block, t: block, c: nat)
    requires c < 4
  {
    && t[4 * c] == Xor(Sub(s[4 * c]), rk[4 * c])
    && t[4 * c + 1] == Xor(Sub(s[4 * ((c + 1) % 4) + 1]), rk[4 * c + 1])
    && t[4 * c + 2] == Xor(Sub(s[4 * ((c + 2) % 4) + 2]), rk[4 * c + 2])
    && t[4 * c + 3] == Xor(Sub(s[4 * ((c + 3) % 4) + 3]), rk[4 * c + 3])
  }

  lemma LastRound(s: block, rk: block, t: block)
    requires forall c: nat :: c < 4 ==> Unmixed(s, rk, t, c)
    ensures AddKey(SubShift(s), rk) == t
  {
    hide Sub, SubShift, Xor, Column;
    var b := SubShift(s);
    var w := AddKey(b, rk);
    forall c: nat | c < 4 ensures Column(w, c) == Column(t, c) {
      assert Unmixed(s, rk, t, c);
      ShiftedColumn(s, c);
      ColumnIs(b, c);
      ColumnIs(w, c);
      ColumnIs(t, c);
    }
    ColumnsDetermine(w, t);
  }

  /** Encryption is those states and the last round. */
  lemma EncryptIs(input: block, rks: seq<block>, states: seq<block>, output: block)
    requires IsKeySchedule(rks) && Rounds(input, rks, states)
    requires forall c: nat :: c < 4 ==> Unmixed(states[13], rks[14], output, c)
    ensures EncryptBlock(input, rks) == output
  {
    hide EncryptRounds, Sub, Xor, Unmixed, AllMixed, AddKey, SubShift;
    StateAfter(input, rks, states, 13);
    LastRound(states[13], rks[14], output);
  }

  // ---- Key expansion (section 5.2) -----------------------------------------------------------

  /** Byte j of word i of the round keys. */
  function KeyByte(rks: seq<block>, i: nat, j: nat): byte
    requires IsKeySchedule(rks) && i < 60 && j < 4
  {
    rks[i / 4][4 * (i % 4) + j]
  }

  lemma KeyBytes(key: seq<byte>, i: nat, j: nat)
    requires |key| == 32 && i < 60 && j < 4
    ensures KeyByte(KeySchedule(key), i, j) == KeyWord(key, i)[j]
  {
    hide KeyWord, RoundKey;
    RoundKeyByte(key, i / 4, i % 4, j);
    assert i == 4 * (i / 4) + i % 4;
  }

  lemma RoundKeyByte(key: seq<byte>, r: nat, m: nat, j: nat)
    requires |key| == 32 && m < 4 && j < 4
    ensures RoundKey(key, r)[4 * m + j] == KeyWord(key, 4 * r + m)[j]
  {
    hide KeyWord, Joined;
    JoinedAt(KeyWord(key, 4 * r), KeyWord(key, 4 * r + 1), KeyWord(key, 4 * r + 2), KeyWord(key, 4 * r + 3), m, j);
  }

  lemma JoinedAt(a: Aes256.word, b: Aes256.word, c: Aes256.word, d: Aes256.word, m: nat, j: nat)
    requires m < 4 && j < 4
    ensures Joined(a, b, c, d)[4 * m + j] == (if m == 0 then a else if m == 1 then b else if m == 2 then c else d)[j]
  {
    match m {
      case 0 =>
      case 1 =>
      case 2 =>
      case _ =>
    }
  }

  /** The round keys begin with the key; each later word is the sum of the one eight before and the one before,
      which is turned, substituted and given a power of x at every eighth word, and substituted half way. */
  lemma KeyExpansion(key: seq<byte>, i: nat, j: nat)
    requires |key| == 32 && i < 60 && j < 4
    ensures var rks := KeySchedule(key);
      KeyByte(rks, i, j) ==
        if i < 8 then key[4 * i + j]
        else if i % 8 == 0 then
          Xor(KeyByte(rks, i - 8, j), Xor(Sub(KeyByte(rks, i - 1, (j + 1) % 4)), if j == 0 then Rcon(i / 8) else 0))
        else if i % 8 == 4 then Xor(KeyByte(rks, i - 8, j), Sub(KeyByte(rks, i - 1, j)))
        else Xor(KeyByte(rks, i - 8, j), KeyByte(rks, i - 1, j))
  {
    hide Sub, KeySchedule, Rcon, Xor, KeyByte, Temp, KeyWord;
    KeyBytes(key, i, j);
    if i < 8 {
      FirstWord(key, i);
    } else {
      KeyBytes(key, i - 8, j);
      KeyBytes(key, i - 1, j);
      KeyBytes(key, i - 1, (j + 1) % 4);
      LaterWord(key, i);
      TempByte(KeyWord(key, i - 1), i, j);
      if i % 8 == 0 && j > 0 { XorZero(Sub(KeyWord(key, i - 1)[(j + 1) % 4])); }
    }
  }

  lemma FirstWord(key: seq<byte>, i: nat)
    requires |key| == 32 && i < 8
    ensures KeyWord(key, i) == key[4 * i..4 * i + 4]
  {
  }

  lemma LaterWord(key: seq<byte>, i: nat)
    requires |key| == 32 && i >= 8
    ensures KeyWord(key, i) == XorBytes(KeyWord(key, i - 8), Temp(KeyWord(key, i - 1), i))
  {
    hide Temp, Xor;
  }

  lemma TempByte(w: Aes256.word, i: nat, j: nat)
    requires j < 4
    ensures Temp(w, i)[j] ==
            if i % 8 == 0 then (if j == 0 then Xor(Sub(w[1]), Rcon(i / 8)) else Sub(w[(j + 1) % 4]))
            else if i % 8 == 4 then Sub(w[j])
            else w[j]
  {
    hide Sub, Xor, Rcon, Temp;
    TempIs(w, i);
  }
}
