/** The AES-256 block cipher: key expansion, encryption and decryption of one block. */
module Aes256 {
  import opened AesSbox
  import opened Bytes
  import opened Gf256
  import opened Wrappers

  type block = s: seq<byte> | |s| == 16 witness [0, 0, 0, 0, 0, 0, 0, 0, 0, 0, 0, 0, 0, 0, 0, 0]

  datatype Error = KeyLength | IvLength | CiphertextLength | InvalidPadding | CorruptedPadding

  predicate IsKeySchedule(rks: seq<block>) {
    |rks| == 15
  }

  // ---- The layers of a round ---------------------------------------------------------------

  /** SubBytes and ShiftRows together, as the code spells them out. */
  function SubShiftList(s: block): block {
    hide Sub;
    [Sub(s[0]),  Sub(s[5]),  Sub(s[10]), Sub(s[15])]
    + [Sub(s[4]),  Sub(s[9]),  Sub(s[14]), Sub(s[3])]
    + [Sub(s[8]),  Sub(s[13]), Sub(s[2]),  Sub(s[7])]
    + [Sub(s[12]), Sub(s[1]),  Sub(s[6]),  Sub(s[11])]
  }

  /** InvShiftRows and InvSubBytes together, as the code spells them out. */
  function InvSubShiftList(s: block): block {
    hide InvSub;
    [InvSub(s[0]),  InvSub(s[13]), InvSub(s[10]), InvSub(s[7])]
    + [InvSub(s[4]),  InvSub(s[1]),  InvSub(s[14]), InvSub(s[11])]
    + [InvSub(s[8]),  InvSub(s[5]),  InvSub(s[2]),  InvSub(s[15])]
    + [InvSub(s[12]), InvSub(s[9]),  InvSub(s[6]),  InvSub(s[3])]
  }

  /** Row i % 4 of column i / 4 comes from as many columns further on (FIPS 197 section 5.1.2). */
  function Shifted(i: nat): (k: nat)
    ensures k < 16
  {
    4 * ((i / 4 + i % 4) % 4) + i % 4
  }

  function Unshifted(i: nat): (k: nat)
    ensures k < 16
  {
    4 * ((i / 4 + 4 - i % 4) % 4) + i % 4
  }

  function SubShift(s: block): block {
    seq(16, i requires 0 <= i < 16 => Sub(s[Shifted(i)]))
  }

  function InvSubShift(s: block): block {
    seq(16, i requires 0 <= i < 16 => InvSub(s[Unshifted(i)]))
  }

  lemma SubShiftSpelled(s: block)
    ensures SubShiftList(s) == SubShift(s)
  {
    hide Sub, Shifted, Column;
    ShiftedTable();
    var t := SubShift(s);
    ColumnsJoin(t);
    ColumnIs(t, 0);
    ColumnIs(t, 1);
    ColumnIs(t, 2);
    ColumnIs(t, 3);
  }

  lemma ShiftedTable()
    ensures Shifted(0) == 0 && Shifted(1) == 5 && Shifted(2) == 10 && Shifted(3) == 15
    ensures Shifted(4) == 4 && Shifted(5) == 9 && Shifted(6) == 14 && Shifted(7) == 3
    ensures Shifted(8) == 8 && Shifted(9) == 13 && Shifted(10) == 2 && Shifted(11) == 7
    ensures Shifted(12) == 12 && Shifted(13) == 1 && Shifted(14) == 6 && Shifted(15) == 11
  {
  }

  lemma InvSubShiftSpelled(s: block)
    ensures InvSubShiftList(s) == InvSubShift(s)
  {
    hide InvSub, Unshifted, Column;
    UnshiftedTable();
    var t := InvSubShift(s);
    ColumnsJoin(t);
    ColumnIs(t, 0);
    ColumnIs(t, 1);
    ColumnIs(t, 2);
    ColumnIs(t, 3);
  }

  lemma UnshiftedTable()
    ensures Unshifted(0) == 0 && Unshifted(1) == 13 && Unshifted(2) == 10 && Unshifted(3) == 7
    ensures Unshifted(4) == 4 && Unshifted(5) == 1 && Unshifted(6) == 14 && Unshifted(7) == 11
    ensures Unshifted(8) == 8 && Unshifted(9) == 5 && Unshifted(10) == 2 && Unshifted(11) == 15
    ensures Unshifted(12) == 12 && Unshifted(13) == 9 && Unshifted(14) == 6 && Unshifted(15) == 3
  {
  }

  function AddKey(s: block, rk: block): block {
    XorBytes(s, rk)
  }

  function Column(s: block, j: nat): (c: seq<byte>)
    requires j < 4
    ensures |c| == 4
  {
    s[4 * j..4 * j + 4]
  }

  function MixColumns(s: block): block {
    MixColumn(Column(s, 0)) + MixColumn(Column(s, 1)) + MixColumn(Column(s, 2)) + MixColumn(Column(s, 3))
  }

  function InvMixColumns(s: block): block {
    hide InvMixColumn;
    InvMixColumn(Column(s, 0)) + InvMixColumn(Column(s, 1)) + InvMixColumn(Column(s, 2)) + InvMixColumn(Column(s, 3))
  }

  function EncryptRound(s: block, rk: block): block {
    AddKey(MixColumns(SubShift(s)), rk)
  }

  function DecryptRound(s: block, rk: block): block {
    InvMixColumns(AddKey(InvSubShift(s), rk))
  }

  lemma InvSubShiftSubShift(s: block)
    ensures InvSubShift(SubShift(s)) == s
  {
    hide Sub, InvSub, Shifted, Unshifted;
    forall i | 0 <= i < 16 ensures InvSubShift(SubShift(s))[i] == s[i] {
      UnshiftedShifted(i);
      InvSubSub(s[i]);
    }
  }

  lemma SubShiftInvSubShift(s: block)
    ensures SubShift(InvSubShift(s)) == s
  {
    hide Sub, InvSub, Shifted, Unshifted;
    forall i | 0 <= i < 16 ensures SubShift(InvSubShift(s))[i] == s[i] {
      ShiftedUnshifted(i);
      SubInvSub(s[i]);
    }
  }

  lemma ShiftedUnshifted(i: nat)
    requires i < 16
    ensures Unshifted(Shifted(i)) == i
  {
    var column, row := i / 4, i % 4;
    assert i == 4 * column + row;
    assert Shifted(i) / 4 == (column + row) % 4 && Shifted(i) % 4 == row;
    assert (column + row) % 4 - row == column || (column + row) % 4 + 4 - row == column;
  }

  lemma UnshiftedShifted(i: nat)
    requires i < 16
    ensures Shifted(Unshifted(i)) == i
  {
    var column, row := i / 4, i % 4;
    assert i == 4 * column + row;
    assert Unshifted(i) / 4 == (column + 4 - row) % 4 && Unshifted(i) % 4 == row;
    assert (column + 4 - row) % 4 + row == column + 4 || (column + 4 - row) % 4 + row == column;
  }

  lemma AddKeyTwice(s: block, rk: block)
    ensures AddKey(AddKey(s, rk), rk) == s
  {
    hide XorBytes;
    XorTwice(s, rk);
  }

  lemma InvMixColumnsMixColumns(s: block)
    ensures InvMixColumns(MixColumns(s)) == s
  {
    hide MixColumn, InvMixColumn;
    forall j: nat | j < 4 ensures Column(InvMixColumns(MixColumns(s)), j) == Column(s, j) {
      MixedColumn(s, j);
      UnmixedColumn(MixColumns(s), j);
      InvMixMix(Column(s, j));
    }
    ColumnsDetermine(InvMixColumns(MixColumns(s)), s);
  }

  lemma MixColumnsInvMixColumns(s: block)
    ensures MixColumns(InvMixColumns(s)) == s
  {
    hide MixColumn, InvMixColumn;
    forall j: nat | j < 4 ensures Column(MixColumns(InvMixColumns(s)), j) == Column(s, j) {
      UnmixedColumn(s, j);
      MixedColumn(InvMixColumns(s), j);
      MixInvMix(Column(s, j));
    }
    ColumnsDetermine(MixColumns(InvMixColumns(s)), s);
  }

  lemma MixedColumn(s: block, j: nat)
    requires j < 4
    ensures Column(MixColumns(s), j) == MixColumn(Column(s, j))
  {
    hide MixColumn;
    FourColumns(MixColumn(Column(s, 0)), MixColumn(Column(s, 1)), MixColumn(Column(s, 2)), MixColumn(Column(s, 3)), j);
  }

  lemma UnmixedColumn(s: block, j: nat)
    requires j < 4
    ensures Column(InvMixColumns(s), j) == InvMixColumn(Column(s, j))
  {
    hide InvMixColumn;
    FourColumns(InvMixColumn(Column(s, 0)), InvMixColumn(Column(s, 1)),
                InvMixColumn(Column(s, 2)), InvMixColumn(Column(s, 3)), j);
  }

  lemma FourColumns(a: seq<byte>, b: seq<byte>, c: seq<byte>, d: seq<byte>, j: nat)
    requires |a| == |b| == |c| == |d| == 4
    requires j < 4
    ensures Column(a + b + c + d, j) == match j case 0 => a case 1 => b case 2 => c case _ => d
  {
  }

  lemma ColumnsDetermine(s: block, t: block)
    requires forall j: nat | j < 4 :: Column(s, j) == Column(t, j)
    ensures s == t
  {
    ColumnsJoin(s);
    ColumnsJoin(t);
  }

  lemma ColumnsJoin(s: block)
    ensures s == Column(s, 0) + Column(s, 1) + Column(s, 2) + Column(s, 3)
  {
  }

  /** Writing one column leaves the others. */
  lemma ColumnWritten(s: block, j: nat, x: seq<byte>)
    requires j < 4 && |x| == 4
    ensures var t := s[4 * j := x[0]][4 * j + 1 := x[1]][4 * j + 2 := x[2]][4 * j + 3 := x[3]];
      Column(t, j) == x && forall k: nat | k < 4 && k != j :: Column(t, k) == Column(s, k)
  {
    var t := s[4 * j := x[0]][4 * j + 1 := x[1]][4 * j + 2 := x[2]][4 * j + 3 := x[3]];
    assert Column(t, j) == x;
  }

  lemma ColumnOfKeyed(s: block, rk: block, j: nat)
    requires j < 4
    ensures Column(AddKey(s, rk), j) == XorBytes(Column(s, j), Column(rk, j))
  {
    hide Xor;
  }

  lemma RoundInverse(s: block, rk: block)
    ensures DecryptRound(SubShift(EncryptRound(s, rk)), rk) == SubShift(s)
  {
    hide SubShift, InvSubShift, AddKey, MixColumns, InvMixColumns;
    InvSubShiftSubShift(EncryptRound(s, rk));
    AddKeyTwice(MixColumns(SubShift(s)), rk);
    InvMixColumnsMixColumns(SubShift(s));
  }

  // ---- The whole block ---------------------------------------------------------------------

  /** The state after the whitening and rounds 1 to r. */
  function EncryptRounds(s: block, rks: seq<block>, r: nat): block
    requires r < |rks|
  {
    if r == 0 then AddKey(s, rks[0]) else EncryptRound(EncryptRounds(s, rks, r - 1), rks[r])
  }

  function EncryptBlock(s: block, rks: seq<block>): block
    requires IsKeySchedule(rks)
  {
    AddKey(SubShift(EncryptRounds(s, rks, |rks| - 2)), rks[|rks| - 1])
  }

  /** The state from before the inverse of round r, worked back to the plaintext. */
  function DecryptRounds(s: block, rks: seq<block>, r: nat): block
    requires r < |rks|
    decreases r
  {
    if r == 0 then AddKey(InvSubShift(s), rks[0]) else DecryptRounds(DecryptRound(s, rks[r]), rks, r - 1)
  }

  function DecryptBlock(s: block, rks: seq<block>): block
    requires IsKeySchedule(rks)
  {
    DecryptRounds(AddKey(s, rks[|rks| - 1]), rks, |rks| - 2)
  }

  lemma {:induction false} RoundsInverse(s: block, rks: seq<block>, r: nat)
    requires r < |rks|
    ensures DecryptRounds(SubShift(EncryptRounds(s, rks, r)), rks, r) == s
    decreases r
  {
    hide SubShift, InvSubShift, AddKey, EncryptRound, DecryptRound;
    if r == 0 {
      InvSubShiftSubShift(AddKey(s, rks[0]));
      AddKeyTwice(s, rks[0]);
    } else {
      RoundInverse(EncryptRounds(s, rks, r - 1), rks[r]);
      RoundsInverse(s, rks, r - 1);
    }
  }

  /** Decryption undoes encryption, whatever the fifteen round keys. */
  lemma DecryptEncryptBlock(s: block, rks: seq<block>)
    requires IsKeySchedule(rks)
    ensures DecryptBlock(EncryptBlock(s, rks), rks) == s
  {
    hide SubShift, AddKey, EncryptRounds, DecryptRounds;
    AddKeyTwice(SubShift(EncryptRounds(s, rks, 13)), rks[14]);
    RoundsInverse(s, rks, 13);
  }

  lemma {:induction false} RoundsReturn(s: block, rks: seq<block>, r: nat)
    requires r < |rks|
    ensures SubShift(EncryptRounds(DecryptRounds(s, rks, r), rks, r)) == s
    decreases r
  {
    hide SubShift, InvSubShift, AddKey, MixColumns, InvMixColumns;
    SubShiftInvSubShift(s);
    AddKeyTwice(InvSubShift(s), rks[r]);
    if r > 0 {
      MixColumnsInvMixColumns(AddKey(InvSubShift(s), rks[r]));
      RoundsReturn(DecryptRound(s, rks[r]), rks, r - 1);
    }
  }

  /** Encryption undoes decryption: under every key schedule the cipher permutes the blocks. */
  lemma EncryptDecryptBlock(s: block, rks: seq<block>)
    requires IsKeySchedule(rks)
    ensures EncryptBlock(DecryptBlock(s, rks), rks) == s
  {
    hide SubShift, AddKey, EncryptRounds, DecryptRounds;
    RoundsReturn(AddKey(s, rks[14]), rks, 13);
    AddKeyTwice(s, rks[14]);
  }

  // ---- The loops ---------------------------------------------------------------------------

  /** MixColumns and AddRoundKey, column by column in place. */
  method MixAndAdd(s0: block, rk: block) returns (s: block)
    ensures s == AddKey(MixColumns(s0), rk)
  {
    hide MixByte, Sum4, Xor, MixColumns, AddKey, Column, XorBytes;
    s := s0;
    for j := 0 to 4
      invariant forall k: nat | k < j :: Column(s, k) == Column(AddKey(MixColumns(s0), rk), k)
      invariant forall k: nat | j <= k < 4 :: Column(s, k) == Column(s0, k)
    {
      var c := 4 * j;
      var a0, a1, a2, a3 := s[c], s[c + 1], s[c + 2], s[c + 3];
      var t := Sum4(a0, a1, a2, a3);
      ghost var before, x := s, [Xor(MixByte(t, a0, a1), rk[c]), Xor(MixByte(t, a1, a2), rk[c + 1]),
                                 Xor(MixByte(t, a2, a3), rk[c + 2]), Xor(MixByte(t, a3, a0), rk[c + 3])];
      ColumnIs(s, j);
      MixedAndAdded(s0, rk, j, x);
      ColumnWritten(s, j, x);
      s := s[c := Xor(MixByte(t, a0, a1), rk[c])];
      s := s[c + 1 := Xor(MixByte(t, a1, a2), rk[c + 1])];
      s := s[c + 2 := Xor(MixByte(t, a2, a3), rk[c + 2])];
      s := s[c + 3 := Xor(MixByte(t, a3, a0), rk[c + 3])];
    }
    ColumnsDetermine(s, AddKey(MixColumns(s0), rk));
  }

  lemma ColumnIs(s: block, j: nat)
    requires j < 4
    ensures Column(s, j) == [s[4 * j], s[4 * j + 1], s[4 * j + 2], s[4 * j + 3]]
  {
  }

  lemma MixedAndAdded(s: block, rk: block, j: nat, x: seq<byte>)
    requires j < 4
    requires var t := Sum4(Column(s, j)[0], Column(s, j)[1], Column(s, j)[2], Column(s, j)[3]);
      x == [Xor(MixByte(t, Column(s, j)[0], Column(s, j)[1]), rk[4 * j]),
            Xor(MixByte(t, Column(s, j)[1], Column(s, j)[2]), rk[4 * j + 1]),
            Xor(MixByte(t, Column(s, j)[2], Column(s, j)[3]), rk[4 * j + 2]),
            Xor(MixByte(t, Column(s, j)[3], Column(s, j)[0]), rk[4 * j + 3])]
    ensures Column(AddKey(MixColumns(s), rk), j) == x
  {
    hide MixByte, Sum4, Xor, MixColumns, AddKey, Column;
    ColumnOfKeyed(MixColumns(s), rk, j);
    MixedColumn(s, j);
    ColumnIs(rk, j);
  }

  method AddRoundKey(s0: block, rk: block) returns (s: block)
    ensures s == AddKey(s0, rk)
  {
    hide Xor;
    s := s0;
    for i := 0 to 16
      invariant forall k :: 0 <= k < i ==> s[k] == Xor(s0[k], rk[k])
      invariant forall k :: i <= k < 16 ==> s[k] == s0[k]
    {
      s := s[i := Xor(s[i], rk[i])];
    }
  }

  method AddAndUnmix(s0: block, rk: block) returns (s: block)
    ensures s == InvMixColumns(AddKey(s0, rk))
  {
    hide Gmul, Sum4, Xor, InvMixColumns, Column, AddKey;
    s := s0;
    s := AddRoundKey(s, rk);
    ghost var s1 := s;
    for j := 0 to 4
      invariant forall k: nat | k < j :: Column(s, k) == Column(InvMixColumns(s1), k)
      invariant forall k: nat | j <= k < 4 :: Column(s, k) == Column(s1, k)
    {
      var c := 4 * j;
      var a0, a1, a2, a3 := s[c], s[c + 1], s[c + 2], s[c + 3];
      ColumnIs(s, j);
      UnmixedColumn(s1, j);
      ColumnWritten(s, j, InvMixColumn(Column(s, j)));
      s := s[c := Sum4(Gmul(a0, 0x0E), Gmul(a1, 0x0B), Gmul(a2, 0x0D), Gmul(a3, 0x09))];
      s := s[c + 1 := Sum4(Gmul(a0, 0x09), Gmul(a1, 0x0E), Gmul(a2, 0x0B), Gmul(a3, 0x0D))];
      s := s[c + 2 := Sum4(Gmul(a0, 0x0D), Gmul(a1, 0x09), Gmul(a2, 0x0E), Gmul(a3, 0x0B))];
      s := s[c + 3 := Sum4(Gmul(a0, 0x0B), Gmul(a1, 0x0D), Gmul(a2, 0x09), Gmul(a3, 0x0E))];
    }
    ColumnsDetermine(s, InvMixColumns(s1));
  }

  method Encrypt(input: block, rks: seq<block>) returns (s: block)
    requires IsKeySchedule(rks)
    ensures s == EncryptBlock(input, rks)
  {
    hide SubShift, SubShiftList, AddKey, MixColumns;
    s := AddKey(input, rks[0]);
    for r := 1 to 14
      invariant s == EncryptRounds(input, rks, r - 1)
    {
      SubShiftSpelled(s);
      s := SubShiftList(s);
      s := MixAndAdd(s, rks[r]);
    }
    SubShiftSpelled(s);
    s := AddKey(SubShiftList(s), rks[14]);
  }

  method Decrypt(input: block, rks: seq<block>) returns (s: block)
    requires IsKeySchedule(rks)
    ensures s == DecryptBlock(input, rks)
  {
    hide InvSubShift, InvSubShiftList, AddKey, InvMixColumns;
    s := AddKey(input, rks[14]);
    for r := 14 downto 1
      invariant DecryptRounds(s, rks, r - 1) == DecryptBlock(input, rks)
    {
      InvSubShiftSpelled(s);
      s := InvSubShiftList(s);
      s := AddAndUnmix(s, rks[r]);
    }
    InvSubShiftSpelled(s);
    s := AddKey(InvSubShiftList(s), rks[0]);
  }

  // ---- Key expansion -----------------------------------------------------------------------

  type word = w: seq<byte> | |w| == 4 witness [0, 0, 0, 0]

  /** The round constants, as FIPS 197 section 5.2 has them: powers of x. */
  function Rcon(i: nat): byte {
    if i == 0 then 0 else if i == 1 then 1 else Xtime(Rcon(i - 1))
  }

  const RCON: seq<byte> := [0x00, 0x01, 0x02, 0x04, 0x08, 0x10, 0x20, 0x40, 0x80, 0x1B, 0x36]

  lemma RconIsTable(i: nat)
    requires i < 11
    ensures RCON[i] == Rcon(i)
  {
    assert Rcon(0) == 0 && Rcon(1) == 1;
    assert Rcon(2) == 2 && Rcon(3) == 4;
    assert Rcon(4) == 8 && Rcon(5) == 0x10;
    assert Rcon(6) == 0x20 && Rcon(7) == 0x40;
    assert Rcon(8) == 0x80 && Rcon(9) == 0x1B;
    assert Rcon(10) == 0x36;
  }

  function SubWord(w: word): word {
    [Sub(w[0]), Sub(w[1]), Sub(w[2]), Sub(w[3])]
  }

  function RotWord(w: word): word {
    [w[1], w[2], w[3], w[0]]
  }

  /** What is added to the word eight places back to make word i. */
  function Temp(before: word, i: nat): word {
    if i % 8 == 0 then XorBytes(SubWord(RotWord(before)), [Rcon(i / 8), 0, 0, 0])
    else if i % 8 == 4 then SubWord(before)
    else before
  }

  /** Word i of the expanded key (FIPS 197 section 5.2, with eight words of key). */
  function KeyWord(key: seq<byte>, i: nat): word
    requires |key| == 32
  {
    if i < 8 then key[4 * i..4 * i + 4] else XorBytes(KeyWord(key, i - 8), Temp(KeyWord(key, i - 1), i))
  }

  function RoundKey(key: seq<byte>, r: nat): block
    requires |key| == 32
  {
    hide KeyWord;
    Joined(KeyWord(key, 4 * r), KeyWord(key, 4 * r + 1), KeyWord(key, 4 * r + 2), KeyWord(key, 4 * r + 3))
  }

  function Joined(a: word, b: word, c: word, d: word): block {
    a[..] + b + c + d
  }

  function KeySchedule(key: seq<byte>): (rks: seq<block>)
    requires |key| == 32
    ensures IsKeySchedule(rks)
  {
    hide RoundKey;
    seq(15, r requires 0 <= r < 15 => RoundKey(key, r))
  }

  method ExpandKey(key: seq<byte>) returns (r: Result<seq<block>, Error>)
    ensures r == if |key| == 32 then Ok(KeySchedule(key)) else Err(KeyLength)
  {
    hide KeyWord, Joined;
    if |key| != 32 {
      return Err(KeyLength);
    }
    var w := ExpandWords(key);
    var rks: seq<block> := [];
    for k := 0 to 15
      invariant |rks| == k
      invariant forall j :: 0 <= j < k ==> rks[j] == RoundKey(key, j)
    {
      rks := rks + [Joined(w[k * 4], w[k * 4 + 1], w[k * 4 + 2], w[k * 4 + 3])];
    }
    assert rks == KeySchedule(key);
    return Ok(rks);
  }

  method ExpandWords(key: seq<byte>) returns (w: seq<word>)
    requires |key| == 32
    ensures |w| == 60
    ensures forall k :: 0 <= k < 60 ==> w[k] == KeyWord(key, k)
  {
    w := seq(8, i requires 0 <= i < 8 => key[4 * i..4 * i + 4]);
    for i := 8 to 60
      invariant |w| == i
      invariant forall k :: 0 <= k < i ==> w[k] == KeyWord(key, k)
    {
      hide XorBytes, Temp;
      assert KeyWord(key, i) == XorBytes(w[i - 8], Temp(w[i - 1], i));
      var temp := NextTemp(w[i - 1], i);
      w := w + [XorBytes(w[i - 8], temp)];
    }
  }

  method NextTemp(before: word, i: nat) returns (temp: word)
    requires i < 60
    ensures temp == Temp(before, i)
  {
    hide Sub, Xor, Rcon, XorBytes, Temp;
    temp := before;
    TempIs(temp, i);
    if i % 8 == 0 {
      RconIsTable(i / 8);
      temp := [Xor(Sub(temp[1]), RCON[i / 8]), Sub(temp[2]), Sub(temp[3]), Sub(temp[0])];
    } else if i % 8 == 4 {
      temp := [Sub(temp[0]), Sub(temp[1]), Sub(temp[2]), Sub(temp[3])];
    }
  }

  lemma TempIs(w: word, i: nat)
    ensures Temp(w, i) ==
            if i % 8 == 0 then [Xor(Sub(w[1]), Rcon(i / 8)), Sub(w[2]), Sub(w[3]), Sub(w[0])]
            else if i % 8 == 4 then [Sub(w[0]), Sub(w[1]), Sub(w[2]), Sub(w[3])]
            else w
  {
    hide Sub, Xor, Rcon;
    RconWord(w, Rcon(i / 8));
  }

  lemma RconWord(w: word, c: byte)
    ensures XorBytes(SubWord(RotWord(w)), [c, 0, 0, 0]) == [Xor(Sub(w[1]), c), Sub(w[2]), Sub(w[3]), Sub(w[0])]
  {
    hide Sub, Xor;
    XorZero(Sub(w[2]));
    XorZero(Sub(w[3]));
    XorZero(Sub(w[0]));
  }
}
