/** The ChaCha20 block function and stream cipher (RFC 8439). */
module ChaCha20 {
  import opened Bytes
  import opened Wrappers

  type word = bv32
  type state = s: seq<word> | |s| == 16 witness [0, 0, 0, 0, 0, 0, 0, 0, 0, 0, 0, 0, 0, 0, 0, 0]

  datatype Error = KeyOrNonceLength

  const MAX_COUNTER: nat := 0x1_0000_0000

  // ---- Words and bytes, little end first -----------------------------------------------------

  function WordOf(b0: byte, b1: byte, b2: byte, b3: byte): word {
    (b0 as word) | ((b1 as word) << 8) | ((b2 as word) << 16) | ((b3 as word) << 24)
  }

  function ByteOf(w: word, k: nat): byte
    requires k < 4
  {
    match k
    case 0 => (w & 0xFF) as byte
    case 1 => ((w >> 8) & 0xFF) as byte
    case 2 => ((w >> 16) & 0xFF) as byte
    case _ => ((w >> 24) & 0xFF) as byte
  }

  lemma WordBytes(w: word)
    ensures WordOf(ByteOf(w, 0), ByteOf(w, 1), ByteOf(w, 2), ByteOf(w, 3)) == w
  {
  }

  function WordAt(b: seq<byte>, i: nat): word
    requires 4 * i + 4 <= |b|
  {
    WordOf(b[4 * i], b[4 * i + 1], b[4 * i + 2], b[4 * i + 3])
  }

  function ToWord(n: nat): word
    requires n < MAX_COUNTER
  {
    n as word
  }

  /** struct.pack("<16I", *s) */
  function Serialize(s: state): (b: seq<byte>)
    ensures |b| == 64
  {
    seq(64, i requires 0 <= i < 64 => ByteOf(s[i / 4], i % 4))
  }

  // ---- Quarter rounds ------------------------------------------------------------------------

  function Rotl32(v: word, c: word): word
    requires 0 < c < 32
  {
    (v << c) | (v >> (32 - c))
  }

  function Add32(a: word, b: word): word {
    a + b
  }

  function Xor32(a: word, b: word): word {
    a ^ b
  }

  /** One addition, exclusive or and rotation for each of four words, twice over (section 2.1). */
  function HalfRound(a: word, b: word, c: word, d: word, r: word, t: word): (word, word, word, word)
    requires 0 < r < 32 && 0 < t < 32
  {
    var a1 := Add32(a, b);
    var d1 := Rotl32(Xor32(d, a1), r);
    var c1 := Add32(c, d1);
    var b1 := Rotl32(Xor32(b, c1), t);
    (a1, b1, c1, d1)
  }

  function QuarterRound(a: word, b: word, c: word, d: word): (word, word, word, word) {
    var (a1, b1, c1, d1) := HalfRound(a, b, c, d, 16, 12);
    HalfRound(a1, b1, c1, d1, 8, 7)
  }

  /** Four places of the state, one in each row. */
  datatype Quad = Quad(a: nat, b: nat, c: nat, d: nat) {
    predicate InRows() {
      a < 4 <= b < 8 <= c < 12 <= d < 16
    }
  }

  type quad = q: Quad | q.InRows() witness Quad(0, 4, 8, 12)

  function Write(s: state, q: quad, v: (word, word, word, word)): state {
    s[q.a := v.0][q.b := v.1][q.c := v.2][q.d := v.3]
  }

  /** Section 2.2: a quarter round on the words at the places of q. */
  function RoundAt(s: state, q: quad): state {
    Write(s, q, QuarterRound(s[q.a], s[q.b], s[q.c], s[q.d]))
  }

  lemma HalfWritten(s: state, q: quad, w: state, r: word, t: word)
    requires 0 < r < 32 && 0 < t < 32
    requires w[q.a] == Add32(s[q.a], s[q.b])
    requires w[q.d] == Rotl32(Xor32(s[q.d], w[q.a]), r)
    requires w[q.c] == Add32(s[q.c], w[q.d])
    requires w[q.b] == Rotl32(Xor32(s[q.b], w[q.c]), t)
    requires forall i :: 0 <= i < 16 && i != q.a && i != q.b && i != q.c && i != q.d ==> w[i] == s[i]
    ensures w == Write(s, q, HalfRound(s[q.a], s[q.b], s[q.c], s[q.d], r, t))
  {
    hide Rotl32, Add32, Xor32;
  }

  lemma Halves(s: state, q: quad, half: state, w: state)
    requires half == Write(s, q, HalfRound(s[q.a], s[q.b], s[q.c], s[q.d], 16, 12))
    requires w == Write(half, q, HalfRound(half[q.a], half[q.b], half[q.c], half[q.d], 8, 7))
    ensures w == RoundAt(s, q)
  {
    hide Rotl32, Add32, Xor32, HalfRound;
  }

  /** Four of the eight in-place updates of a quarter round. */
  method MixHalf(s: state, q: quad, r: word, t: word) returns (w: state)
    requires 0 < r < 32 && 0 < t < 32
    ensures w == Write(s, q, HalfRound(s[q.a], s[q.b], s[q.c], s[q.d], r, t))
  {
    hide Rotl32, Add32, Xor32, HalfRound;
    var a, b, c, d := q.a, q.b, q.c, q.d;
    w := s;
    w := w[a := Add32(w[a], w[b])];
    w := w[d := Rotl32(Xor32(w[d], w[a]), r)];
    w := w[c := Add32(w[c], w[d])];
    w := w[b := Rotl32(Xor32(w[b], w[c]), t)];
    HalfWritten(s, q, w, r, t);
  }

  method MixInPlace(s: state, q: quad) returns (w: state)
    ensures w == RoundAt(s, q)
  {
    hide HalfRound, RoundAt;
    var half := MixHalf(s, q, 16, 12);
    w := MixHalf(half, q, 8, 7);
    Halves(s, q, half, w);
  }

  const COLUMNS: seq<quad> := [Quad(0, 4, 8, 12), Quad(1, 5, 9, 13), Quad(2, 6, 10, 14), Quad(3, 7, 11, 15)]

  const DIAGONALS: seq<quad> := [Quad(0, 5, 10, 15), Quad(1, 6, 11, 12), Quad(2, 7, 8, 13), Quad(3, 4, 9, 14)]

  /** Section 2.3: columns of the four-by-four state, and its diagonals, each row turned one place
      further than the one before. */
  lemma QuadsOfTheState(k: nat)
    requires k < 4
    ensures COLUMNS[k] == Quad(k, 4 + k, 8 + k, 12 + k)
    ensures DIAGONALS[k] == Quad(k, 4 + (k + 1) % 4, 8 + (k + 2) % 4, 12 + (k + 3) % 4)
  {
    match k {
      case 0 =>
      case 1 =>
      case 2 =>
      case _ =>
    }
  }

  /** The quarter rounds at the places listed, in order. */
  function RoundsAt(s: state, qs: seq<quad>): state
    decreases |qs|
  {
    if qs == [] then s else RoundsAt(RoundAt(s, qs[0]), qs[1..])
  }

  method MixAll(s: state, qs: seq<quad>) returns (w: state)
    ensures w == RoundsAt(s, qs)
  {
    hide RoundAt;
    w := s;
    for i := 0 to |qs|
      invariant RoundsAt(w, qs[i..]) == RoundsAt(s, qs)
    {
      assert qs[i..][0] == qs[i] && qs[i..][1..] == qs[i + 1..];
      w := MixInPlace(w, qs[i]);
    }
  }

  /** n column rounds, each followed by a diagonal round. */
  function DoubleRounds(s: state, n: nat): state {
    if n == 0 then s else RoundsAt(RoundsAt(DoubleRounds(s, n - 1), COLUMNS), DIAGONALS)
  }

  // ---- The block function --------------------------------------------------------------------

  const DOUBLE_ROUNDS: nat := 10

  /** The bytes of "expand 32-byte k". */
  const SIGMA: seq<byte> := [0x65, 0x78, 0x70, 0x61, 0x6E, 0x64, 0x20, 0x33, 0x32, 0x2D, 0x62, 0x79, 0x74, 0x65, 0x20, 0x6B]

  /** struct.pack("<I", w) */
  function PackWord(w: word): seq<byte> {
    [ByteOf(w, 0), ByteOf(w, 1), ByteOf(w, 2), ByteOf(w, 3)]
  }

  /** The sixteen little-endian words of the constant, the key, the counter and the nonce. */
  function InitialState(key: seq<byte>, counter: word, nonce: seq<byte>): state
    requires |key| == 32 && |nonce| == 12
  {
    var input := SIGMA + key + PackWord(counter) + nonce;
    seq(16, i requires 0 <= i < 16 => WordAt(input, i))
  }

  /** The layout of section 2.3: four constants, eight words of key, the counter, three of nonce. */
  lemma InitialStateLayout(key: seq<byte>, counter: word, nonce: seq<byte>)
    requires |key| == 32 && |nonce| == 12
    ensures var s := InitialState(key, counter, nonce);
      && s[..4] == [0x61707865, 0x3320646E, 0x79622D32, 0x6B206574]
      && (forall i :: 0 <= i < 8 ==> s[4 + i] == WordAt(key, i))
      && s[12] == counter
      && (forall i :: 0 <= i < 3 ==> s[13 + i] == WordAt(nonce, i))
  {
    hide WordOf, ByteOf;
    var input := SIGMA + key + PackWord(counter) + nonce;
    Constants();
    WordBytes(counter);
    assert input[48..52] == PackWord(counter);
    assert WordAt(input, 12) == counter;
  }

  lemma Constants()
    ensures WordOf(0x65, 0x78, 0x70, 0x61) == 0x61707865
    ensures WordOf(0x6E, 0x64, 0x20, 0x33) == 0x3320646E
    ensures WordOf(0x32, 0x2D, 0x62, 0x79) == 0x79622D32
    ensures WordOf(0x74, 0x65, 0x20, 0x6B) == 0x6B206574
  {
  }

  function AddStates(u: state, v: state): state {
    seq(16, i requires 0 <= i < 16 => Add32(u[i], v[i]))
  }

  function Block(key: seq<byte>, counter: word, nonce: seq<byte>): (b: seq<byte>)
    requires |key| == 32 && |nonce| == 12
    ensures |b| == 64
  {
    var s := InitialState(key, counter, nonce);
    Serialize(AddStates(DoubleRounds(s, DOUBLE_ROUNDS), s))
  }

  method ChaCha20Block(key: seq<byte>, counter: word, nonce: seq<byte>) returns (b: seq<byte>)
    requires |key| == 32 && |nonce| == 12
    ensures b == Block(key, counter, nonce)
  {
    hide InitialState, RoundsAt, AddStates, Serialize;
    var s := InitialState(key, counter, nonce);
    var w := s;
    for i := 0 to DOUBLE_ROUNDS
      invariant w == DoubleRounds(s, i)
    {
      w := MixAll(w, COLUMNS);
      w := MixAll(w, DIAGONALS);
    }
    b := Serialize(AddStates(w, s));
  }

  // ---- The stream ----------------------------------------------------------------------------

  function KeystreamByte(key: seq<byte>, nonce: seq<byte>, counter: nat, i: nat): byte
    requires |key| == 32 && |nonce| == 12
  {
    Block(key, ToWord((counter + i / 64) % MAX_COUNTER), nonce)[i % 64]
  }

  function Crypt(key: seq<byte>, nonce: seq<byte>, data: seq<byte>, counter: nat): (out: seq<byte>)
    requires |key| == 32 && |nonce| == 12
    ensures |out| == |data|
    ensures forall i :: 0 <= i < |data| ==> out[i] == Xor(data[i], KeystreamByte(key, nonce, counter, i))
  {
    seq(|data|, i requires 0 <= i < |data| => Xor(data[i], KeystreamByte(key, nonce, counter, i)))
  }

  method Chacha20Crypt(key: seq<byte>, nonce: seq<byte>, data: seq<byte>, initialCounter: nat)
      returns (r: Result<seq<byte>, Error>)
    requires initialCounter < MAX_COUNTER
    ensures r == if |key| != 32 || |nonce| != 12 then Err(KeyOrNonceLength)
                 else Ok(Crypt(key, nonce, data, initialCounter))
  {
    if |key| != 32 || |nonce| != 12 {
      return Err(KeyOrNonceLength);
    }
    hide Block, KeystreamByte;
    var out := new byte[|data|];
    var counter := initialCounter;
    var offset := 0;
    while offset < |data|
      invariant offset % 64 == 0
      invariant counter == (initialCounter + offset / 64) % MAX_COUNTER
      invariant Ciphered(out[..], data, key, nonce, initialCounter, offset)
    {
      CryptChunk(out, key, nonce, data, initialCounter, counter, offset);
      NextCounter(initialCounter, offset);
      counter := (counter + 1) % MAX_COUNTER;
      offset := offset + 64;
    }
    assert out[..] == Crypt(key, nonce, data, initialCounter);
    return Ok(out[..]);
  }

  /** The first n bytes of the output are in place. */
  predicate Ciphered(out: seq<byte>, data: seq<byte>, key: seq<byte>, nonce: seq<byte>, initial: nat, n: nat)
    requires |key| == 32 && |nonce| == 12
  {
    && |out| == |data|
    && forall j :: 0 <= j < n && j < |data| ==> out[j] == Xor(data[j], KeystreamByte(key, nonce, initial, j))
  }

  /** One block of key stream against up to 64 bytes of data. */
  method CryptChunk(out: array<byte>, key: seq<byte>, nonce: seq<byte>, data: seq<byte>,
                    initial: nat, counter: nat, offset: nat)
    requires |key| == 32 && |nonce| == 12
    requires offset < |data| && offset % 64 == 0
    requires counter == (initial + offset / 64) % MAX_COUNTER
    requires Ciphered(out[..], data, key, nonce, initial, offset)
    modifies out
    ensures Ciphered(out[..], data, key, nonce, initial, offset + 64)
  {
    hide Block, Xor, ToWord, KeystreamByte;
    var stream := ChaCha20Block(key, ToWord(counter), nonce);
    var end := if offset + 64 <= |data| then offset + 64 else |data|;
    XorChunk(out, offset, data[offset..end], stream);
    forall j | offset <= j < end ensures out[j] == Xor(data[j], KeystreamByte(key, nonce, initial, j)) {
      StreamPlace(key, nonce, initial, offset, j - offset);
    }
  }

  method XorChunk(out: array<byte>, offset: nat, chunk: seq<byte>, stream: seq<byte>)
    requires |chunk| <= |stream| && offset + |chunk| <= out.Length
    modifies out
    ensures forall j :: offset <= j < offset + |chunk| ==> out[j] == Xor(chunk[j - offset], stream[j - offset])
    ensures forall j :: 0 <= j < out.Length && !(offset <= j < offset + |chunk|) ==> out[j] == old(out[j])
  {
    hide Xor;
    for i := 0 to |chunk|
      invariant forall j :: offset <= j < offset + i ==> out[j] == Xor(chunk[j - offset], stream[j - offset])
      invariant forall j :: 0 <= j < out.Length && !(offset <= j < offset + i) ==> out[j] == old(out[j])
    {
      out[offset + i] := Xor(chunk[i], stream[i]);
    }
  }

  lemma StreamPlace(key: seq<byte>, nonce: seq<byte>, initial: nat, offset: nat, i: nat)
    requires |key| == 32 && |nonce| == 12
    requires offset % 64 == 0 && i < 64
    ensures KeystreamByte(key, nonce, initial, offset + i)
         == Block(key, ToWord((initial + offset / 64) % MAX_COUNTER), nonce)[i]
  {
    hide Block, ToWord;
    PlaceInBlock(offset, i);
  }

  lemma PlaceInBlock(offset: nat, i: nat)
    requires offset % 64 == 0 && i < 64
    ensures (offset + i) / 64 == offset / 64 && (offset + i) % 64 == i
  {
  }

  lemma NextCounter(initial: nat, offset: nat)
    requires offset % 64 == 0
    ensures ((initial + offset / 64) % MAX_COUNTER + 1) % MAX_COUNTER == (initial + (offset + 64) / 64) % MAX_COUNTER
  {
  }

  /** The cipher is its own inverse. */
  lemma CryptTwice(key: seq<byte>, nonce: seq<byte>, data: seq<byte>, counter: nat)
    requires |key| == 32 && |nonce| == 12
    ensures Crypt(key, nonce, Crypt(key, nonce, data, counter), counter) == data
  {
    hide KeystreamByte, Xor;
    var once := Crypt(key, nonce, data, counter);
    forall i | 0 <= i < |data| ensures Crypt(key, nonce, once, counter)[i] == data[i] {
      XorCancels(data[i], KeystreamByte(key, nonce, counter, i));
    }
  }

  /** A message cut at a block boundary can be ciphered in two parts, the second with the counter
      moved on. */
  lemma CryptInParts(key: seq<byte>, nonce: seq<byte>, x: seq<byte>, y: seq<byte>, counter: nat)
    requires |key| == 32 && |nonce| == 12
    requires |x| % 64 == 0
    ensures Crypt(key, nonce, x + y, counter)
         == Crypt(key, nonce, x, counter) + Crypt(key, nonce, y, (counter + |x| / 64) % MAX_COUNTER)
  {
    hide Block, Xor, ToWord;
    var moved := (counter + |x| / 64) % MAX_COUNTER;
    forall i | 0 <= i < |y|
      ensures KeystreamByte(key, nonce, counter, |x| + i) == KeystreamByte(key, nonce, moved, i)
    {
      MovedCounter(counter, |x|, i);
    }
  }

  lemma MovedCounter(counter: nat, n: nat, i: nat)
    requires n % 64 == 0
    ensures (n + i) % 64 == i % 64
    ensures (counter + (n + i) / 64) % MAX_COUNTER == ((counter + n / 64) % MAX_COUNTER + i / 64) % MAX_COUNTER
  {
  }
}
