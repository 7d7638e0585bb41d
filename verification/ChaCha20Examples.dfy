/** The rotations of ChaCha20 as arithmetic, and the examples of RFC 8439, worked out round by round. */
module ChaCha20Examples {
  import opened Bytes
  import opened ChaCha20
  import opened Wrappers

  // ---- Rotations -----------------------------------------------------------------------------

  /** Section 2.1: the four rotations. In arithmetic modulo 2^32, a word turned left by c places is its product
      with 2^c and, at the low end, its quotient by 2^(32 - c). */
  lemma Rotations(v: word)
    ensures Rotl32(v, 16) == v * 0x1_0000 + v / 0x1_0000
    ensures Rotl32(v, 12) == v * 0x1000 + v / 0x10_0000
    ensures Rotl32(v, 8) == v * 0x100 + v / 0x100_0000
    ensures Rotl32(v, 7) == v * 0x80 + v / 0x200_0000
  {
    hide Rotl32;
    RotatedBy16(v);
    RotatedBy12(v);
    RotatedBy8(v);
    RotatedBy7(v);
  }

  lemma RotatedBy16(v: word)
    ensures Rotl32(v, 16) == v * 0x1_0000 + v / 0x1_0000
  {
  }

  lemma RotatedBy12(v: word)
    ensures Rotl32(v, 12) == v * 0x1000 + v / 0x10_0000
  {
  }

  lemma RotatedBy8(v: word)
    ensures Rotl32(v, 8) == v * 0x100 + v / 0x100_0000
  {
  }

  lemma RotatedBy7(v: word)
    ensures Rotl32(v, 7) == v * 0x80 + v / 0x200_0000
  {
  }

  // ---- Rounds --------------------------------------------------------------------------------

  /** Section 2.1.1. */
  lemma QuarterRoundExample()
    ensures QuarterRound(0x11111111, 0x01020304, 0x9B8D6F43, 0x01234567)
         == (0xEA2A92F4, 0xCB1CF8CE, 0x4581472E, 0x5881C4BB)
  {
  }

  lemma FourRounds(s: state, qs: seq<quad>)
    requires |qs| == 4
    ensures RoundsAt(s, qs) == RoundAt(RoundAt(RoundAt(RoundAt(s, qs[0]), qs[1]), qs[2]), qs[3])
  {
    hide RoundAt, RoundsAt;
    var s1 := RoundAt(s, qs[0]);
    var s2 := RoundAt(s1, qs[1]);
    var s3 := RoundAt(s2, qs[2]);
    FirstRound(s, qs);
    FirstRound(s1, qs[1..]);
    assert qs[1..][1..] == qs[2..];
    FirstRound(s2, qs[2..]);
    assert qs[2..][1..] == qs[3..];
    FirstRound(s3, qs[3..]);
    assert qs[3..][1..] == [];
    NoRound(RoundAt(s3, qs[3]));
  }

  lemma FirstRound(s: state, qs: seq<quad>)
    requires qs != []
    ensures RoundsAt(s, qs) == RoundsAt(RoundAt(s, qs[0]), qs[1..])
  {
    hide RoundAt;
  }

  lemma NoRound(s: state)
    ensures RoundsAt(s, []) == s
  {
  }

  /** The words of s at the places of q become those of t. */
  function Take(s: state, q: quad, t: state): state {
    s[q.a := t[q.a]][q.b := t[q.b]][q.c := t[q.c]][q.d := t[q.d]]
  }

  lemma QuarterAt(s: state, q: quad, t: state)
    requires QuarterRound(s[q.a], s[q.b], s[q.c], s[q.d]) == (t[q.a], t[q.b], t[q.c], t[q.d])
    ensures RoundAt(s, q) == Take(s, q, t)
  {
    hide QuarterRound;
  }

  /** Two quads of different places. */
  predicate Apart(q: quad, r: quad) {
    q.a != r.a && q.b != r.b && q.c != r.c && q.d != r.d
  }

  lemma TakenElsewhere(s: state, q: quad, r: quad, t: state)
    requires Apart(q, r)
    ensures var s' := Take(s, r, t); s'[q.a] == s[q.a] && s'[q.b] == s[q.b] && s'[q.c] == s[q.c] && s'[q.d] == s[q.d]
  {
  }

  lemma TakenHere(s: state, q: quad, t: state)
    ensures var s' := Take(s, q, t); s'[q.a] == t[q.a] && s'[q.b] == t[q.b] && s'[q.c] == t[q.c] && s'[q.d] == t[q.d]
  {
  }

  predicate Quartered(s: state, q: quad, t: state) {
    QuarterRound(s[q.a], s[q.b], s[q.c], s[q.d]) == (t[q.a], t[q.b], t[q.c], t[q.d])
  }

  predicate Placed(s: state, q: quad, t: state) {
    s[q.a] == t[q.a] && s[q.b] == t[q.b] && s[q.c] == t[q.c] && s[q.d] == t[q.d]
  }

  /** Four quarter rounds at places apart: each sees the words of s and leaves those of t. */
  lemma RoundsApart(s: state, qs: seq<quad>, t: state)
    requires |qs| == 4 && (forall i, j :: 0 <= i < j < 4 ==> Apart(qs[i], qs[j]) && Apart(qs[j], qs[i]))
    requires forall i :: 0 <= i < 4 ==> Quartered(s, qs[i], t)
    ensures forall i :: 0 <= i < 4 ==> Placed(RoundsAt(s, qs), qs[i], t)
  {
    hide RoundAt, RoundsAt, Apart, QuarterRound, Take;
    FourRounds(s, qs);
    var s1 := Take(s, qs[0], t);
    var s2 := Take(s1, qs[1], t);
    var s3 := Take(s2, qs[2], t);
    var s4 := Take(s3, qs[3], t);
    forall k | 0 <= k < 4 ensures RoundsAt(s, qs) == s4 && Placed(s4, qs[k], t) {
      assert Quartered(s, qs[0], t) && Quartered(s, qs[1], t) && Quartered(s, qs[2], t) && Quartered(s, qs[3], t);
      TakenElsewhere(s, qs[1], qs[0], t);
      TakenElsewhere(s, qs[2], qs[0], t);
      TakenElsewhere(s, qs[3], qs[0], t);
      TakenElsewhere(s1, qs[2], qs[1], t);
      TakenElsewhere(s1, qs[3], qs[1], t);
      TakenElsewhere(s2, qs[3], qs[2], t);
      QuarterAt(s, qs[0], t);
      QuarterAt(s1, qs[1], t);
      QuarterAt(s2, qs[2], t);
      QuarterAt(s3, qs[3], t);
      TakenHere(s, qs[0], t);
      TakenHere(s1, qs[1], t);
      TakenHere(s2, qs[2], t);
      TakenHere(s3, qs[3], t);
      TakenElsewhere(s1, qs[0], qs[1], t);
      TakenElsewhere(s2, qs[0], qs[2], t);
      TakenElsewhere(s3, qs[0], qs[3], t);
      TakenElsewhere(s2, qs[1], qs[2], t);
      TakenElsewhere(s3, qs[1], qs[3], t);
      TakenElsewhere(s3, qs[2], qs[3], t);
    }
  }

  /** A quarter round of each column. */
  lemma ColumnRound(s: state, t: state)
    requires Quartered(s, COLUMNS[0], t) && Quartered(s, COLUMNS[1], t)
    requires Quartered(s, COLUMNS[2], t) && Quartered(s, COLUMNS[3], t)
    ensures RoundsAt(s, COLUMNS) == t
  {
    hide QuarterRound, RoundsAt, Quartered;
    RoundsApart(s, COLUMNS, t);
    var w := RoundsAt(s, COLUMNS);
    assert Placed(w, COLUMNS[0], t) && Placed(w, COLUMNS[1], t) && Placed(w, COLUMNS[2], t) && Placed(w, COLUMNS[3], t);
  }

  /** A quarter round of each diagonal. */
  lemma DiagonalRound(s: state, t: state)
    requires Quartered(s, DIAGONALS[0], t) && Quartered(s, DIAGONALS[1], t)
    requires Quartered(s, DIAGONALS[2], t) && Quartered(s, DIAGONALS[3], t)
    ensures RoundsAt(s, DIAGONALS) == t
  {
    hide QuarterRound, RoundsAt, Quartered;
    RoundsApart(s, DIAGONALS, t);
    var w := RoundsAt(s, DIAGONALS);
    assert Placed(w, DIAGONALS[0], t) && Placed(w, DIAGONALS[1], t);
    assert Placed(w, DIAGONALS[2], t) && Placed(w, DIAGONALS[3], t);
  }

  // ---- The block of section 2.3.2 -------------------------------------------------------------

  const STATE_0: state :=
    [0x61707865, 0x3320646E, 0x79622D32, 0x6B206574, 0x03020100, 0x07060504, 0x0B0A0908, 0x0F0E0D0C,
     0x13121110, 0x17161514, 0x1B1A1918, 0x1F1E1D1C, 0x00000001, 0x09000000, 0x4A000000, 0x00000000]

  const STATE_1: state :=
    [0xABBAA25C, 0x1EFA51EA, 0x7354FBDF, 0x83D2DC69, 0x3A465196, 0x1C7E64F6, 0xB12FB628, 0xF05B6976,
     0x6B3CA454, 0x08EB14B1, 0xBF8A9AC9, 0xE444DF3B, 0xDEC62ED2, 0x8862CC77, 0x6E35B345, 0x52A647F1]

  const STATE_2: state :=
    [0xCD52E917, 0x85AB03B4, 0xB3457395, 0xF96DE7DD, 0xC4B7CD22, 0x5C2E187A, 0xC95EB461, 0x316C801A,
     0x7BF7D740, 0x7EDDD644, 0xF1A1BDF5, 0x761246CA, 0x6B0D58A3, 0x6798471A, 0xD737F167, 0xF173888D]

  const STATE_3: state :=
    [0xE3E1111B, 0xA6291491, 0x5A82B80C, 0x4500FD45, 0xD65B5B5B, 0xF56AF099, 0x4CCC8103, 0xC94D29E2,
     0xE67AEC54, 0xF7A52D82, 0xDB470914, 0xDFB40F1D, 0x7BE81C0D, 0x1D92D0FD, 0x13139F8C, 0x7A26ECAA]

  const STATE_4: state :=
    [0xCF1A7584, 0x048927EC, 0x54051FDA, 0xC244FF28, 0x901D2F40, 0x7974B81C, 0x378DCFB4, 0xCD47FD0E,
     0x2DAFB216, 0x27C89CD6, 0xCD3C9AA0, 0x79FC89C7, 0x10AEF18D, 0x16218765, 0x68F76705, 0x04D6EE22]

  const STATE_5: state :=
    [0xA22695F2, 0xA908CF6C, 0xE6AE05B2, 0xFE0FF04B, 0x1ECE4458, 0xE82B726F, 0x5A21AB90, 0x87698C64,
     0xF2D36DA6, 0xF4DAB980, 0x7BAF5573, 0xA78C270D, 0x6FDA6BF7, 0x65A4B0CE, 0x25E6D76E, 0x1B7B11EC]

  const STATE_6: state :=
    [0x03A14032, 0x66B15927, 0x9D6B6B42, 0xB84C4109, 0xA7143AE0, 0xA09B33DD, 0xA5DAAF88, 0x2FD91A73,
     0xC90C6B18, 0x5A202413, 0xC20E01B6, 0x72CD6B74, 0xBA35D777, 0xB360F1BF, 0x8178315B, 0x2CD11B1A]

  const STATE_7: state :=
    [0xFECD0838, 0x160AB468, 0x9A0DDF4E, 0xBAC7154A, 0xCEDF6624, 0xB11DE6C4, 0xBD7810EF, 0xD22B5643,
     0x1D8A33EA, 0x87DC1CA9, 0x89BD34A5, 0x5505EF62, 0xA818B852, 0xB100446A, 0x9C1D70B1, 0xA1D1BEFA]

  const STATE_8: state :=
    [0x9A2D3589, 0x0B23FC4E, 0x40AF3B6B, 0xCEEA8144, 0x0A1BFFC6, 0x5E5993F7, 0x9904C2E7, 0x0D334718,
     0xE46C6354, 0xC9503229, 0x04FEF5AA, 0xF8933F72, 0x2687D476, 0x54E65231, 0x3594FFC5, 0x2B3BB2CA]

  const STATE_9: state :=
    [0x85E7824A, 0x4940CD9E, 0xFBE7684B, 0x7335D03D, 0x1C133EA1, 0xBBA40B0F, 0x9413992A, 0xA4AB2040,
     0xA3A66A86, 0xC0B4754F, 0x771B4ECB, 0x165151A1, 0xDE008464, 0x34F0058B, 0x70846CFA, 0xA3271B09]

  const STATE_10: state :=
    [0xC53318C5, 0xCA325D96, 0x7E7D11CB, 0x3404E2CA, 0x26D7CF73, 0x6088D379, 0xC0F0E9BD, 0xE310CDB9,
     0xAE2CA8DB, 0x42F67C72, 0x71669ACA, 0x975C171D, 0x9E5EC228, 0x7D85A9F3, 0x201D0756, 0x63FA6953]

  const STATE_11: state :=
    [0x9950B826, 0xCAC7CCC6, 0x84A67673, 0xDB3109A6, 0x2121065A, 0xC12BDADB, 0xCAE3ACD1, 0x594616CB,
     0x19078DE2, 0x178ECC02, 0xE6ADBDB2, 0x52A9D50E, 0x40CA72B3, 0x3B9BF852, 0x78690378, 0xE17D4902]

  const STATE_12: state :=
    [0x04A3131A, 0x66176309, 0x0415BAB1, 0x61B880A2, 0x36CC86C7, 0xBF8A4465, 0xF77DD720, 0xFC0BDC90,
     0x07D13ACA, 0xEB0BE9AF, 0x61599491, 0x918512DC, 0x33B6686D, 0x795CC671, 0xC0049972, 0xA0A81BDE]

  const STATE_13: state :=
    [0x57C5E6DA, 0x35CE46A8, 0x0C041BB9, 0xFA91DF79, 0x8E85D82F, 0xB4819D06, 0xB63BE200, 0xACD221E4,
     0x434B4749, 0x1D459C00, 0x111CFE2C, 0x55942604, 0x49EE03A6, 0xD11A5554, 0xA7202E04, 0x7D2215BC]

  const STATE_14: state :=
    [0x9B70F51F, 0x7EA8AC11, 0x21E54DA9, 0xCA393B2F, 0x93B08686, 0x6A4C50AE, 0x19212A5A, 0x9B032958,
     0xD839165E, 0x4C06E28A, 0xD3FDE99E, 0x26ACC13D, 0xA609F555, 0x2C246549, 0x95151853, 0x2C847A0D]

  const STATE_15: state :=
    [0xC0B18AEE, 0x087445BA, 0x36E52AD9, 0xA777426A, 0xDEB54E9C, 0x802C883B, 0x06E86889, 0x3C002680,
     0xA82D65D4, 0x687F11EB, 0xE9D36207, 0x4242DDAE, 0x4103C64E, 0x82816A91, 0xB584CA56, 0xFD0BD2B9]

  const STATE_16: state :=
    [0xCA5C85DD, 0x93A4F90E, 0xD9F0DF58, 0x26DD82DD, 0x982563F8, 0x712AA9FF, 0x279A61E8, 0x970F72BD,
     0x1C25931A, 0x5180BB10, 0x779C27E7, 0x54077E08, 0xA9B751FB, 0x382F3CE2, 0x8DB1757D, 0xCC38080B]

  const STATE_17: state :=
    [0x765C6E9C, 0x5AB09B11, 0x3EE7DA04, 0x37C31203, 0x9046ECAA, 0x7B88D882, 0xB9B577DD, 0x156DE7ED,
     0x46FA091E, 0x5117E9B5, 0x862FF22B, 0xA3FCC7A6, 0x72A5AACE, 0x5FA7F1C5, 0xDA563E0A, 0x5263D7CA]

  const STATE_18: state :=
    [0xB6B87DE6, 0x9A016148, 0x93859815, 0x4915E6CC, 0xDC33C122, 0x98E18FA3, 0x5FFBE8FC, 0xF7154B8B,
     0x28C1FCB3, 0xC4B38F9D, 0x83E2F5D7, 0x7D24B98B, 0x21078B22, 0xB193E7A3, 0xB2F49389, 0x6CDE6026]

  const STATE_19: state :=
    [0x8A07FF15, 0x0CADC51C, 0x017C8DA9, 0x4AFBE5DF, 0x913768FE, 0x442A0C0C, 0x598FE3BB, 0x47D18828,
     0x0A39AEDC, 0xC1428029, 0x7B48135F, 0x5A5F1098, 0x2D4CFE3E, 0xE5466D1B, 0xE4CCDC13, 0x8AC92A18]

  const STATE_20: state :=
    [0x837778AB, 0xE238D763, 0xA67AE21E, 0x5950BB2F, 0xC4F2D0C7, 0xFC62BB2F, 0x8FA018FC, 0x3F5EC7B7,
     0x335271C2, 0xF29489F3, 0xEABDA8FC, 0x82E46EBD, 0xD19C12B4, 0xB04E16DE, 0x9E83D0CB, 0x4E3C50A2]

  lemma Quarters0()
    ensures QuarterRound(0x61707865, 0x03020100, 0x13121110, 0x00000001)
         == (0xABBAA25C, 0x3A465196, 0x6B3CA454, 0xDEC62ED2)
    ensures QuarterRound(0x3320646E, 0x07060504, 0x17161514, 0x09000000)
         == (0x1EFA51EA, 0x1C7E64F6, 0x08EB14B1, 0x8862CC77)
    ensures QuarterRound(0x79622D32, 0x0B0A0908, 0x1B1A1918, 0x4A000000)
         == (0x7354FBDF, 0xB12FB628, 0xBF8A9AC9, 0x6E35B345)
    ensures QuarterRound(0x6B206574, 0x0F0E0D0C, 0x1F1E1D1C, 0x00000000)
         == (0x83D2DC69, 0xF05B6976, 0xE444DF3B, 0x52A647F1)
  {
  }

  lemma Round0()
    ensures RoundsAt(STATE_0, COLUMNS) == STATE_1
  {
    hide QuarterRound;
    Quarters0();
    ColumnRound(STATE_0, STATE_1);
  }

  lemma Quarters1()
    ensures QuarterRound(0xABBAA25C, 0x1C7E64F6, 0xBF8A9AC9, 0x52A647F1)
         == (0xCD52E917, 0x5C2E187A, 0xF1A1BDF5, 0xF173888D)
    ensures QuarterRound(0x1EFA51EA, 0xB12FB628, 0xE444DF3B, 0xDEC62ED2)
         == (0x85AB03B4, 0xC95EB461, 0x761246CA, 0x6B0D58A3)
    ensures QuarterRound(0x7354FBDF, 0xF05B6976, 0x6B3CA454, 0x8862CC77)
         == (0xB3457395, 0x316C801A, 0x7BF7D740, 0x6798471A)
    ensures QuarterRound(0x83D2DC69, 0x3A465196, 0x08EB14B1, 0x6E35B345)
         == (0xF96DE7DD, 0xC4B7CD22, 0x7EDDD644, 0xD737F167)
  {
  }

  lemma Round1()
    ensures RoundsAt(STATE_1, DIAGONALS) == STATE_2
  {
    hide QuarterRound;
    Quarters1();
    DiagonalRound(STATE_1, STATE_2);
  }

  lemma Quarters2()
    ensures QuarterRound(0xCD52E917, 0xC4B7CD22, 0x7BF7D740, 0x6B0D58A3)
         == (0xE3E1111B, 0xD65B5B5B, 0xE67AEC54, 0x7BE81C0D)
    ensures QuarterRound(0x85AB03B4, 0x5C2E187A, 0x7EDDD644, 0x6798471A)
         == (0xA6291491, 0xF56AF099, 0xF7A52D82, 0x1D92D0FD)
    ensures QuarterRound(0xB3457395, 0xC95EB461, 0xF1A1BDF5, 0xD737F167)
         == (0x5A82B80C, 0x4CCC8103, 0xDB470914, 0x13139F8C)
    ensures QuarterRound(0xF96DE7DD, 0x316C801A, 0x761246CA, 0xF173888D)
         == (0x4500FD45, 0xC94D29E2, 0xDFB40F1D, 0x7A26ECAA)
  {
  }

  lemma Round2()
    ensures RoundsAt(STATE_2, COLUMNS) == STATE_3
  {
    hide QuarterRound;
    Quarters2();
    ColumnRound(STATE_2, STATE_3);
  }

  lemma Quarters3()
    ensures QuarterRound(0xE3E1111B, 0xF56AF099, 0xDB470914, 0x7A26ECAA)
         == (0xCF1A7584, 0x7974B81C, 0xCD3C9AA0, 0x04D6EE22)
    ensures QuarterRound(0xA6291491, 0x4CCC8103, 0xDFB40F1D, 0x7BE81C0D)
         == (0x048927EC, 0x378DCFB4, 0x79FC89C7, 0x10AEF18D)
    ensures QuarterRound(0x5A82B80C, 0xC94D29E2, 0xE67AEC54, 0x1D92D0FD)
         == (0x54051FDA, 0xCD47FD0E, 0x2DAFB216, 0x16218765)
    ensures QuarterRound(0x4500FD45, 0xD65B5B5B, 0xF7A52D82, 0x13139F8C)
         == (0xC244FF28, 0x901D2F40, 0x27C89CD6, 0x68F76705)
  {
  }

  lemma Round3()
    ensures RoundsAt(STATE_3, DIAGONALS) == STATE_4
  {
    hide QuarterRound;
    Quarters3();
    DiagonalRound(STATE_3, STATE_4);
  }

  lemma Quarters4()
    ensures QuarterRound(0xCF1A7584, 0x901D2F40, 0x2DAFB216, 0x10AEF18D)
         == (0xA22695F2, 0x1ECE4458, 0xF2D36DA6, 0x6FDA6BF7)
    ensures QuarterRound(0x048927EC, 0x7974B81C, 0x27C89CD6, 0x16218765)
         == (0xA908CF6C, 0xE82B726F, 0xF4DAB980, 0x65A4B0CE)
    ensures QuarterRound(0x54051FDA, 0x378DCFB4, 0xCD3C9AA0, 0x68F76705)
         == (0xE6AE05B2, 0x5A21AB90, 0x7BAF5573, 0x25E6D76E)
    ensures QuarterRound(0xC244FF28, 0xCD47FD0E, 0x79FC89C7, 0x04D6EE22)
         == (0xFE0FF04B, 0x87698C64, 0xA78C270D, 0x1B7B11EC)
  {
  }

  lemma Round4()
    ensures RoundsAt(STATE_4, COLUMNS) == STATE_5
  {
    hide QuarterRound;
    Quarters4();
    ColumnRound(STATE_4, STATE_5);
  }

  lemma Quarters5()
    ensures QuarterRound(0xA22695F2, 0xE82B726F, 0x7BAF5573, 0x1B7B11EC)
         == (0x03A14032, 0xA09B33DD, 0xC20E01B6, 0x2CD11B1A)
    ensures QuarterRound(0xA908CF6C, 0x5A21AB90, 0xA78C270D, 0x6FDA6BF7)
         == (0x66B15927, 0xA5DAAF88, 0x72CD6B74, 0xBA35D777)
    ensures QuarterRound(0xE6AE05B2, 0x87698C64, 0xF2D36DA6, 0x65A4B0CE)
         == (0x9D6B6B42, 0x2FD91A73, 0xC90C6B18, 0xB360F1BF)
    ensures QuarterRound(0xFE0FF04B, 0x1ECE4458, 0xF4DAB980, 0x25E6D76E)
         == (0xB84C4109, 0xA7143AE0, 0x5A202413, 0x8178315B)
  {
  }

  lemma Round5()
    ensures RoundsAt(STATE_5, DIAGONALS) == STATE_6
  {
    hide QuarterRound;
    Quarters5();
    DiagonalRound(STATE_5, STATE_6);
  }

  lemma Quarters6()
    ensures QuarterRound(0x03A14032, 0xA7143AE0, 0xC90C6B18, 0xBA35D777)
         == (0xFECD0838, 0xCEDF6624, 0x1D8A33EA, 0xA818B852)
    ensures QuarterRound(0x66B15927, 0xA09B33DD, 0x5A202413, 0xB360F1BF)
         == (0x160AB468, 0xB11DE6C4, 0x87DC1CA9, 0xB100446A)
    ensures QuarterRound(0x9D6B6B42, 0xA5DAAF88, 0xC20E01B6, 0x8178315B)
         == (0x9A0DDF4E, 0xBD7810EF, 0x89BD34A5, 0x9C1D70B1)
    ensures QuarterRound(0xB84C4109, 0x2FD91A73, 0x72CD6B74, 0x2CD11B1A)
         == (0xBAC7154A, 0xD22B5643, 0x5505EF62, 0xA1D1BEFA)
  {
  }

  lemma Round6()
    ensures RoundsAt(STATE_6, COLUMNS) == STATE_7
  {
    hide QuarterRound;
    Quarters6();
    ColumnRound(STATE_6, STATE_7);
  }

  lemma Quarters7()
    ensures QuarterRound(0xFECD0838, 0xB11DE6C4, 0x89BD34A5, 0xA1D1BEFA)
         == (0x9A2D3589, 0x5E5993F7, 0x04FEF5AA, 0x2B3BB2CA)
    ensures QuarterRound(0x160AB468, 0xBD7810EF, 0x5505EF62, 0xA818B852)
         == (0x0B23FC4E, 0x9904C2E7, 0xF8933F72, 0x2687D476)
    ensures QuarterRound(0x9A0DDF4E, 0xD22B5643, 0x1D8A33EA, 0xB100446A)
         == (0x40AF3B6B, 0x0D334718, 0xE46C6354, 0x54E65231)
    ensures QuarterRound(0xBAC7154A, 0xCEDF6624, 0x87DC1CA9, 0x9C1D70B1)
         == (0xCEEA8144, 0x0A1BFFC6, 0xC9503229, 0x3594FFC5)
  {
  }

  lemma Round7()
    ensures RoundsAt(STATE_7, DIAGONALS) == STATE_8
  {
    hide QuarterRound;
    Quarters7();
    DiagonalRound(STATE_7, STATE_8);
  }

  lemma Quarters8()
    ensures QuarterRound(0x9A2D3589, 0x0A1BFFC6, 0xE46C6354, 0x2687D476)
         == (0x85E7824A, 0x1C133EA1, 0xA3A66A86, 0xDE008464)
    ensures QuarterRound(0x0B23FC4E, 0x5E5993F7, 0xC9503229, 0x54E65231)
         == (0x4940CD9E, 0xBBA40B0F, 0xC0B4754F, 0x34F0058B)
    ensures QuarterRound(0x40AF3B6B, 0x9904C2E7, 0x04FEF5AA, 0x3594FFC5)
         == (0xFBE7684B, 0x9413992A, 0x771B4ECB, 0x70846CFA)
    ensures QuarterRound(0xCEEA8144, 0x0D334718, 0xF8933F72, 0x2B3BB2CA)
         == (0x7335D03D, 0xA4AB2040, 0x165151A1, 0xA3271B09)
  {
  }

  lemma Round8()
    ensures RoundsAt(STATE_8, COLUMNS) == STATE_9
  {
    hide QuarterRound;
    Quarters8();
    ColumnRound(STATE_8, STATE_9);
  }

  lemma Quarters9()
    ensures QuarterRound(0x85E7824A, 0xBBA40B0F, 0x771B4ECB, 0xA3271B09)
         == (0xC53318C5, 0x6088D379, 0x71669ACA, 0x63FA6953)
    ensures QuarterRound(0x4940CD9E, 0x9413992A, 0x165151A1, 0xDE008464)
         == (0xCA325D96, 0xC0F0E9BD, 0x975C171D, 0x9E5EC228)
    ensures QuarterRound(0xFBE7684B, 0xA4AB2040, 0xA3A66A86, 0x34F0058B)
         == (0x7E7D11CB, 0xE310CDB9, 0xAE2CA8DB, 0x7D85A9F3)
    ensures QuarterRound(0x7335D03D, 0x1C133EA1, 0xC0B4754F, 0x70846CFA)
         == (0x3404E2CA, 0x26D7CF73, 0x42F67C72, 0x201D0756)
  {
  }

  lemma Round9()
    ensures RoundsAt(STATE_9, DIAGONALS) == STATE_10
  {
    hide QuarterRound;
    Quarters9();
    DiagonalRound(STATE_9, STATE_10);
  }

  lemma Quarters10()
    ensures QuarterRound(0xC53318C5, 0x26D7CF73, 0xAE2CA8DB, 0x9E5EC228)
         == (0x9950B826, 0x2121065A, 0x19078DE2, 0x40CA72B3)
    ensures QuarterRound(0xCA325D96, 0x6088D379, 0x42F67C72, 0x7D85A9F3)
         == (0xCAC7CCC6, 0xC12BDADB, 0x178ECC02, 0x3B9BF852)
    ensures QuarterRound(0x7E7D11CB, 0xC0F0E9BD, 0x71669ACA, 0x201D0756)
         == (0x84A67673, 0xCAE3ACD1, 0xE6ADBDB2, 0x78690378)
    ensures QuarterRound(0x3404E2CA, 0xE310CDB9, 0x975C171D, 0x63FA6953)
         == (0xDB3109A6, 0x594616CB, 0x52A9D50E, 0xE17D4902)
  {
  }

  lemma Round10()
    ensures RoundsAt(STATE_10, COLUMNS) == STATE_11
  {
    hide QuarterRound;
    Quarters10();
    ColumnRound(STATE_10, STATE_11);
  }

  lemma Quarters11()
    ensures QuarterRound(0x9950B826, 0xC12BDADB, 0xE6ADBDB2, 0xE17D4902)
         == (0x04A3131A, 0xBF8A4465, 0x61599491, 0xA0A81BDE)
    ensures QuarterRound(0xCAC7CCC6, 0xCAE3ACD1, 0x52A9D50E, 0x40CA72B3)
         == (0x66176309, 0xF77DD720, 0x918512DC, 0x33B6686D)
    ensures QuarterRound(0x84A67673, 0x594616CB, 0x19078DE2, 0x3B9BF852)
         == (0x0415BAB1, 0xFC0BDC90, 0x07D13ACA, 0x795CC671)
    ensures QuarterRound(0xDB3109A6, 0x2121065A, 0x178ECC02, 0x78690378)
         == (0x61B880A2, 0x36CC86C7, 0xEB0BE9AF, 0xC0049972)
  {
  }

  lemma Round11()
    ensures RoundsAt(STATE_11, DIAGONALS) == STATE_12
  {
    hide QuarterRound;
    Quarters11();
    DiagonalRound(STATE_11, STATE_12);
  }

  lemma Quarters12()
    ensures QuarterRound(0x04A3131A, 0x36CC86C7, 0x07D13ACA, 0x33B6686D)
         == (0x57C5E6DA, 0x8E85D82F, 0x434B4749, 0x49EE03A6)
    ensures QuarterRound(0x66176309, 0xBF8A4465, 0xEB0BE9AF, 0x795CC671)
         == (0x35CE46A8, 0xB4819D06, 0x1D459C00, 0xD11A5554)
    ensures QuarterRound(0x0415BAB1, 0xF77DD720, 0x61599491, 0xC0049972)
         == (0x0C041BB9, 0xB63BE200, 0x111CFE2C, 0xA7202E04)
    ensures QuarterRound(0x61B880A2, 0xFC0BDC90, 0x918512DC, 0xA0A81BDE)
         == (0xFA91DF79, 0xACD221E4, 0x55942604, 0x7D2215BC)
  {
  }

  lemma Round12()
    ensures RoundsAt(STATE_12, COLUMNS) == STATE_13
  {
    hide QuarterRound;
    Quarters12();
    ColumnRound(STATE_12, STATE_13);
  }

  lemma Quarters13()
    ensures QuarterRound(0x57C5E6DA, 0xB4819D06, 0x111CFE2C, 0x7D2215BC)
         == (0x9B70F51F, 0x6A4C50AE, 0xD3FDE99E, 0x2C847A0D)
    ensures QuarterRound(0x35CE46A8, 0xB63BE200, 0x55942604, 0x49EE03A6)
         == (0x7EA8AC11, 0x19212A5A, 0x26ACC13D, 0xA609F555)
    ensures QuarterRound(0x0C041BB9, 0xACD221E4, 0x434B4749, 0xD11A5554)
         == (0x21E54DA9, 0x9B032958, 0xD839165E, 0x2C246549)
    ensures QuarterRound(0xFA91DF79, 0x8E85D82F, 0x1D459C00, 0xA7202E04)
         == (0xCA393B2F, 0x93B08686, 0x4C06E28A, 0x95151853)
  {
  }

  lemma Round13()
    ensures RoundsAt(STATE_13, DIAGONALS) == STATE_14
  {
    hide QuarterRound;
    Quarters13();
    DiagonalRound(STATE_13, STATE_14);
  }

  lemma Quarters14()
    ensures QuarterRound(0x9B70F51F, 0x93B08686, 0xD839165E, 0xA609F555)
         == (0xC0B18AEE, 0xDEB54E9C, 0xA82D65D4, 0x4103C64E)
    ensures QuarterRound(0x7EA8AC11, 0x6A4C50AE, 0x4C06E28A, 0x2C246549)
         == (0x087445BA, 0x802C883B, 0x687F11EB, 0x82816A91)
    ensures QuarterRound(0x21E54DA9, 0x19212A5A, 0xD3FDE99E, 0x95151853)
         == (0x36E52AD9, 0x06E86889, 0xE9D36207, 0xB584CA56)
    ensures QuarterRound(0xCA393B2F, 0x9B032958, 0x26ACC13D, 0x2C847A0D)
         == (0xA777426A, 0x3C002680, 0x4242DDAE, 0xFD0BD2B9)
  {
  }

  lemma Round14()
    ensures RoundsAt(STATE_14, COLUMNS) == STATE_15
  {
    hide QuarterRound;
    Quarters14();
    ColumnRound(STATE_14, STATE_15);
  }

  lemma Quarters15()
    ensures QuarterRound(0xC0B18AEE, 0x802C883B, 0xE9D36207, 0xFD0BD2B9)
         == (0xCA5C85DD, 0x712AA9FF, 0x779C27E7, 0xCC38080B)
    ensures QuarterRound(0x087445BA, 0x06E86889, 0x4242DDAE, 0x4103C64E)
         == (0x93A4F90E, 0x279A61E8, 0x54077E08, 0xA9B751FB)
    ensures QuarterRound(0x36E52AD9, 0x3C002680, 0xA82D65D4, 0x82816A91)
         == (0xD9F0DF58, 0x970F72BD, 0x1C25931A, 0x382F3CE2)
    ensures QuarterRound(0xA777426A, 0xDEB54E9C, 0x687F11EB, 0xB584CA56)
         == (0x26DD82DD, 0x982563F8, 0x5180BB10, 0x8DB1757D)
  {
  }

  lemma Round15()
    ensures RoundsAt(STATE_15, DIAGONALS) == STATE_16
  {
    hide QuarterRound;
    Quarters15();
    DiagonalRound(STATE_15, STATE_16);
  }

  lemma Quarters16()
    ensures QuarterRound(0xCA5C85DD, 0x982563F8, 0x1C25931A, 0xA9B751FB)
         == (0x765C6E9C, 0x9046ECAA, 0x46FA091E, 0x72A5AACE)
    ensures QuarterRound(0x93A4F90E, 0x712AA9FF, 0x5180BB10, 0x382F3CE2)
         == (0x5AB09B11, 0x7B88D882, 0x5117E9B5, 0x5FA7F1C5)
    ensures QuarterRound(0xD9F0DF58, 0x279A61E8, 0x779C27E7, 0x8DB1757D)
         == (0x3EE7DA04, 0xB9B577DD, 0x862FF22B, 0xDA563E0A)
    ensures QuarterRound(0x26DD82DD, 0x970F72BD, 0x54077E08, 0xCC38080B)
         == (0x37C31203, 0x156DE7ED, 0xA3FCC7A6, 0x5263D7CA)
  {
  }

  lemma Round16()
    ensures RoundsAt(STATE_16, COLUMNS) == STATE_17
  {
    hide QuarterRound;
    Quarters16();
    ColumnRound(STATE_16, STATE_17);
  }

  lemma Quarters17()
    ensures QuarterRound(0x765C6E9C, 0x7B88D882, 0x862FF22B, 0x5263D7CA)
         == (0xB6B87DE6, 0x98E18FA3, 0x83E2F5D7, 0x6CDE6026)
    ensures QuarterRound(0x5AB09B11, 0xB9B577DD, 0xA3FCC7A6, 0x72A5AACE)
         == (0x9A016148, 0x5FFBE8FC, 0x7D24B98B, 0x21078B22)
    ensures QuarterRound(0x3EE7DA04, 0x156DE7ED, 0x46FA091E, 0x5FA7F1C5)
         == (0x93859815, 0xF7154B8B, 0x28C1FCB3, 0xB193E7A3)
    ensures QuarterRound(0x37C31203, 0x9046ECAA, 0x5117E9B5, 0xDA563E0A)
         == (0x4915E6CC, 0xDC33C122, 0xC4B38F9D, 0xB2F49389)
  {
  }

  lemma Round17()
    ensures RoundsAt(STATE_17, DIAGONALS) == STATE_18
  {
    hide QuarterRound;
    Quarters17();
    DiagonalRound(STATE_17, STATE_18);
  }

  lemma Quarters18()
    ensures QuarterRound(0xB6B87DE6, 0xDC33C122, 0x28C1FCB3, 0x21078B22)
         == (0x8A07FF15, 0x913768FE, 0x0A39AEDC, 0x2D4CFE3E)
    ensures QuarterRound(0x9A016148, 0x98E18FA3, 0xC4B38F9D, 0xB193E7A3)
         == (0x0CADC51C, 0x442A0C0C, 0xC1428029, 0xE5466D1B)
    ensures QuarterRound(0x93859815, 0x5FFBE8FC, 0x83E2F5D7, 0xB2F49389)
         == (0x017C8DA9, 0x598FE3BB, 0x7B48135F, 0xE4CCDC13)
    ensures QuarterRound(0x4915E6CC, 0xF7154B8B, 0x7D24B98B, 0x6CDE6026)
         == (0x4AFBE5DF, 0x47D18828, 0x5A5F1098, 0x8AC92A18)
  {
  }

  lemma Round18()
    ensures RoundsAt(STATE_18, COLUMNS) == STATE_19
  {
    hide QuarterRound;
    Quarters18();
    ColumnRound(STATE_18, STATE_19);
  }

  lemma Quarters19()
    ensures QuarterRound(0x8A07FF15, 0x442A0C0C, 0x7B48135F, 0x8AC92A18)
         == (0x837778AB, 0xFC62BB2F, 0xEABDA8FC, 0x4E3C50A2)
    ensures QuarterRound(0x0CADC51C, 0x598FE3BB, 0x5A5F1098, 0x2D4CFE3E)
         == (0xE238D763, 0x8FA018FC, 0x82E46EBD, 0xD19C12B4)
    ensures QuarterRound(0x017C8DA9, 0x47D18828, 0x0A39AEDC, 0xE5466D1B)
         == (0xA67AE21E, 0x3F5EC7B7, 0x335271C2, 0xB04E16DE)
    ensures QuarterRound(0x4AFBE5DF, 0x913768FE, 0xC1428029, 0xE4CCDC13)
         == (0x5950BB2F, 0xC4F2D0C7, 0xF29489F3, 0x9E83D0CB)
  {
  }

  lemma Round19()
    ensures RoundsAt(STATE_19, DIAGONALS) == STATE_20
  {
    hide QuarterRound;
    Quarters19();
    DiagonalRound(STATE_19, STATE_20);
  }

  lemma TwentyRounds()
    ensures DoubleRounds(STATE_0, DOUBLE_ROUNDS) == STATE_20
  {
    hide RoundsAt;
    Round0();
    Round1();
    Round2();
    Round3();
    Round4();
    Round5();
    Round6();
    Round7();
    Round8();
    Round9();
    Round10();
    Round11();
    Round12();
    Round13();
    Round14();
    Round15();
    Round16();
    Round17();
    Round18();
    Round19();
    assert DoubleRounds(STATE_0, 0) == STATE_0;
    assert DoubleRounds(STATE_0, 1) == STATE_2;
    assert DoubleRounds(STATE_0, 2) == STATE_4;
    assert DoubleRounds(STATE_0, 3) == STATE_6;
    assert DoubleRounds(STATE_0, 4) == STATE_8;
    assert DoubleRounds(STATE_0, 5) == STATE_10;
    assert DoubleRounds(STATE_0, 6) == STATE_12;
    assert DoubleRounds(STATE_0, 7) == STATE_14;
    assert DoubleRounds(STATE_0, 8) == STATE_16;
    assert DoubleRounds(STATE_0, 9) == STATE_18;
    assert DoubleRounds(STATE_0, 10) == STATE_20;
  }

  const KEY: seq<byte> :=
    [0x00, 0x01, 0x02, 0x03, 0x04, 0x05, 0x06, 0x07, 0x08, 0x09, 0x0A, 0x0B, 0x0C, 0x0D, 0x0E, 0x0F,
     0x10, 0x11, 0x12, 0x13, 0x14, 0x15, 0x16, 0x17, 0x18, 0x19, 0x1A, 0x1B, 0x1C, 0x1D, 0x1E, 0x1F]

  const NONCE: seq<byte> := [0x00, 0x00, 0x00, 0x09, 0x00, 0x00, 0x00, 0x4A, 0x00, 0x00, 0x00, 0x00]

  const SUM: state :=
    [0xE4E7F110, 0x15593BD1, 0x1FDD0F50, 0xC47120A3, 0xC7F4D1C7, 0x0368C033, 0x9AAA2204, 0x4E6CD4C3,
     0x466482D2, 0x09AA9F07, 0x05D7C214, 0xA2028BD9, 0xD19C12B5, 0xB94E16DE, 0xE883D0CB, 0x4E3C50A2]

  lemma KeyWord0()
    ensures WordAt(KEY, 0) == 0x03020100
  {
    assert WordAt(KEY, 0) == WordOf(0x00, 0x01, 0x02, 0x03);
  }

  lemma KeyWord1()
    ensures WordAt(KEY, 1) == 0x07060504
  {
    assert WordAt(KEY, 1) == WordOf(0x04, 0x05, 0x06, 0x07);
  }

  lemma KeyWord2()
    ensures WordAt(KEY, 2) == 0x0B0A0908
  {
    assert WordAt(KEY, 2) == WordOf(0x08, 0x09, 0x0A, 0x0B);
  }

  lemma KeyWord3()
    ensures WordAt(KEY, 3) == 0x0F0E0D0C
  {
    assert WordAt(KEY, 3) == WordOf(0x0C, 0x0D, 0x0E, 0x0F);
  }

  lemma KeyWord4()
    ensures WordAt(KEY, 4) == 0x13121110
  {
    assert WordAt(KEY, 4) == WordOf(0x10, 0x11, 0x12, 0x13);
  }

  lemma KeyWord5()
    ensures WordAt(KEY, 5) == 0x17161514
  {
    assert WordAt(KEY, 5) == WordOf(0x14, 0x15, 0x16, 0x17);
  }

  lemma KeyWord6()
    ensures WordAt(KEY, 6) == 0x1B1A1918
  {
    assert WordAt(KEY, 6) == WordOf(0x18, 0x19, 0x1A, 0x1B);
  }

  lemma KeyWord7()
    ensures WordAt(KEY, 7) == 0x1F1E1D1C
  {
    assert WordAt(KEY, 7) == WordOf(0x1C, 0x1D, 0x1E, 0x1F);
  }

  lemma NonceWord0()
    ensures WordAt(NONCE, 0) == 0x09000000
  {
    assert WordAt(NONCE, 0) == WordOf(0x00, 0x00, 0x00, 0x09);
  }

  lemma NonceWord1()
    ensures WordAt(NONCE, 1) == 0x4A000000
  {
    assert WordAt(NONCE, 1) == WordOf(0x00, 0x00, 0x00, 0x4A);
  }

  lemma NonceWord2()
    ensures WordAt(NONCE, 2) == 0x00000000
  {
    assert WordAt(NONCE, 2) == WordOf(0x00, 0x00, 0x00, 0x00);
  }

  lemma ExampleStart()
    ensures InitialState(KEY, 1, NONCE) == STATE_0
  {
    hide InitialState, WordAt, WordOf;
    var s := InitialState(KEY, 1, NONCE);
    InitialStateLayout(KEY, 1, NONCE);
    assert s[0] == s[..4][0] && s[1] == s[..4][1] && s[2] == s[..4][2] && s[3] == s[..4][3];
    KeyWord0();
    KeyWord1();
    KeyWord2();
    KeyWord3();
    KeyWord4();
    KeyWord5();
    KeyWord6();
    KeyWord7();
    NonceWord0();
    NonceWord1();
    NonceWord2();
    assert s[4 + 0] == s[4] && s[13 + 0] == s[13];
  }

  lemma Sums()
    ensures Add32(0x837778AB, 0x61707865) == 0xE4E7F110
    ensures Add32(0xE238D763, 0x3320646E) == 0x15593BD1
    ensures Add32(0xA67AE21E, 0x79622D32) == 0x1FDD0F50
    ensures Add32(0x5950BB2F, 0x6B206574) == 0xC47120A3
    ensures Add32(0xC4F2D0C7, 0x03020100) == 0xC7F4D1C7
    ensures Add32(0xFC62BB2F, 0x07060504) == 0x0368C033
    ensures Add32(0x8FA018FC, 0x0B0A0908) == 0x9AAA2204
    ensures Add32(0x3F5EC7B7, 0x0F0E0D0C) == 0x4E6CD4C3
    ensures Add32(0x335271C2, 0x13121110) == 0x466482D2
    ensures Add32(0xF29489F3, 0x17161514) == 0x09AA9F07
    ensures Add32(0xEABDA8FC, 0x1B1A1918) == 0x05D7C214
    ensures Add32(0x82E46EBD, 0x1F1E1D1C) == 0xA2028BD9
    ensures Add32(0xD19C12B4, 0x00000001) == 0xD19C12B5
    ensures Add32(0xB04E16DE, 0x09000000) == 0xB94E16DE
    ensures Add32(0x9E83D0CB, 0x4A000000) == 0xE883D0CB
    ensures Add32(0x4E3C50A2, 0x00000000) == 0x4E3C50A2
  {
  }

  lemma ExampleSum()
    ensures AddStates(STATE_20, STATE_0) == SUM
  {
    hide Add32;
    Sums();
  }

  /** The bytes of a state read as its words. */
  lemma SerializedWord(s: state, i: nat)
    requires i < 16
    ensures WordAt(Serialize(s), i) == s[i]
  {
    hide ByteOf, WordOf;
    WordBytes(s[i]);
    assert (4 * i + 1) / 4 == i && (4 * i + 1) % 4 == 1;
    assert (4 * i + 2) / 4 == i && (4 * i + 2) % 4 == 2;
    assert (4 * i + 3) / 4 == i && (4 * i + 3) % 4 == 3;
  }

  /** Section 2.3.2: with the key 00 01 ... 1f, the counter 1 and the nonce above, twenty rounds and the addition of
      the first state give these words, little end first. */
  lemma BlockExample(i: nat)
    requires i < 16
    ensures WordAt(Block(KEY, 1, NONCE), i) == SUM[i]
  {
    hide InitialState, DoubleRounds, AddStates, Serialize, WordAt;
    ExampleStart();
    TwentyRounds();
    ExampleSum();
    SerializedWord(SUM, i);
  }
}
