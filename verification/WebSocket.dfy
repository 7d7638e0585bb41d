/** The WebSocket client's frames and messages (RFC 6455 sections 5.2 to 5.5), over a peer that is a
    string of bytes to read and a string of bytes written. */
module WebSocket {
  import opened Bytes
  import opened Wrappers

  const LIMIT: nat := 4 * 1024 * 1024

  const CLOSE: byte := 0x8
  const PING: byte := 0x9
  const PONG: byte := 0xA

  type mask = m: seq<byte> | |m| == 4 witness [0, 0, 0, 0]

  datatype Frame = Frame(fin: bool, opcode: byte, payload: seq<byte>)
  {
    predicate Sendable() {
      opcode < 16 && |payload| <= LIMIT
    }

    /** A fragment of a message: text, binary or continuation. */
    predicate Data() {
      opcode <= 2
    }
  }

  // ---- Header bytes --------------------------------------------------------------------------

  function FirstByte(fin: bool, opcode: byte): byte {
    (if fin then 0x80 else 0) | (opcode & 0x0F)
  }

  function FinOf(b: byte): bool {
    b & 0x80 != 0
  }

  function OpcodeOf(b: byte): byte {
    b & 0x0F
  }

  lemma FirstByteRead(fin: bool, opcode: byte)
    ensures FinOf(FirstByte(fin, opcode)) == fin
    ensures opcode < 16 ==> OpcodeOf(FirstByte(fin, opcode)) == opcode
  {
  }

  function SecondByte(masked: bool, code: nat): byte
    requires code < 128
  {
    Flagged(masked, ByteAt(code))
  }

  function Flagged(masked: bool, b: byte): byte {
    (if masked then 0x80 else 0) | b
  }

  function Unflagged(b: byte): byte {
    b & 0x7F
  }

  function CodeOf(b: byte): (code: nat)
  {
    Index(Unflagged(b))
  }

  lemma FlaggedRead(masked: bool, b: byte)
    requires b < 0x80
    ensures FinOf(Flagged(masked, b)) == masked
    ensures Unflagged(Flagged(masked, b)) == b
  {
  }

  lemma ByteAtBelow(code: int)
    requires 0 <= code < 128
    ensures ByteAt(code) < 0x80
  {
    IndexByteAt(code);
    var b := ByteAt(code);
    hide ByteAt;
    assert Index(b) < 128;
  }

  lemma SecondByteRead(masked: bool, code: nat)
    requires code < 128
    ensures FinOf(SecondByte(masked, code)) == masked
    ensures CodeOf(SecondByte(masked, code)) == code
  {
    hide ByteAt, Index, Flagged, Unflagged, FinOf;
    ByteAtBelow(code);
    IndexByteAt(code);
    FlaggedRead(masked, ByteAt(code));
  }

  // ---- Masking -------------------------------------------------------------------------------

  function Masked(payload: seq<byte>, key: mask): (m: seq<byte>)
    ensures |m| == |payload|
    ensures forall i :: 0 <= i < |m| ==> m[i] == Xor(payload[i], key[i % 4])
  {
    seq(|payload|, i requires 0 <= i < |payload| => Xor(payload[i], key[i % 4]))
  }

  lemma MaskedTwice(payload: seq<byte>, key: mask)
    ensures Masked(Masked(payload, key), key) == payload
  {
    hide Xor;
    forall i | 0 <= i < |payload| ensures Xor(Xor(payload[i], key[i % 4]), key[i % 4]) == payload[i] {
      XorCancels(payload[i], key[i % 4]);
    }
  }

  // ---- Printing a frame ----------------------------------------------------------------------

  /** The seven-bit length code and the bytes that follow it. */
  function LengthCode(n: nat): (code: nat)
    ensures code < 128
  {
    if n < 126 then n else if n < 65536 then 126 else 127
  }

  function LengthBytes(n: nat): seq<byte> {
    if n < 126 then [] else if n < 65536 then ToBE(n, 2) else ToBE(n, 8)
  }

  function Encode(f: Frame, key: Option<mask>): seq<byte> {
    [FirstByte(f.fin, f.opcode), SecondByte(key.Some?, LengthCode(|f.payload|))]
    + LengthBytes(|f.payload|)
    + match key
      case None => f.payload
      case Some(m) => m + Masked(f.payload, m)
  }

  // ---- Reading a frame -----------------------------------------------------------------------

  datatype Parsed = Short | TooLong(rest: seq<byte>) | Parsed(frame: Frame, rest: seq<byte>)

  function ExtensionLength(code: nat): nat {
    if code == 126 then 2 else if code == 127 then 8 else 0
  }

  function PayloadLength(code: nat, extension: seq<byte>): nat {
    if ExtensionLength(code) == 0 then code else FromBE(extension)
  }

  datatype Head = ShortHead | Head(fin: bool, opcode: byte, masked: bool, length: nat, rest: seq<byte>)

  /** The header up to the masking key. */
  function ParseHead(s: seq<byte>): (h: Head)
    ensures h.Head? ==> |h.rest| < |s|
  {
    if |s| < 2 then ShortHead
    else
      var code := CodeOf(s[1]);
      var end := 2 + ExtensionLength(code);
      if |s| < end then ShortHead
      else Head(FinOf(s[0]), OpcodeOf(s[0]), FinOf(s[1]), PayloadLength(code, s[2..end]), s[end..])
  }

  function ParseBody(h: Head): (p: Parsed)
    requires h.Head?
    ensures p.Parsed? ==> |p.rest| <= |h.rest|
  {
    var start := if h.masked then 4 else 0;
    if h.length > LIMIT then TooLong(h.rest)
    else if |h.rest| < start + h.length then Short
    else
      var body, rest := h.rest[start..start + h.length], h.rest[start + h.length..];
      Parsed(Frame(h.fin, h.opcode, if h.masked then Masked(body, h.rest[..4]) else body), rest)
  }

  /** One frame off the front of the input. */
  function Parse(s: seq<byte>): (p: Parsed)
    ensures p.Parsed? ==> |p.rest| < |s|
  {
    var h := ParseHead(s);
    if h.ShortHead? then Short else ParseBody(h)
  }

  lemma LengthRead(n: nat)
    requires n <= LIMIT
    ensures var code := LengthCode(n);
      ExtensionLength(code) == |LengthBytes(n)| && PayloadLength(code, LengthBytes(n)) == n
  {
    hide FromBE, ToBE;
    if n >= 65536 {
      Pow256Large();
      FromToBE(n, 8);
    } else if n >= 126 {
      Pow256Large();
      FromToBE(n, 2);
    }
  }

  lemma Pow256Large()
    ensures Pow256(2) == 65536 && Pow256(8) > LIMIT
  {
    assert Pow256(1) == 256;
    assert Pow256(3) == 256 * Pow256(2);
    assert Pow256(4) == 256 * Pow256(3);
    assert Pow256(5) == 256 * Pow256(4);
    assert Pow256(6) == 256 * Pow256(5);
    assert Pow256(7) == 256 * Pow256(6);
    assert Pow256(8) == 256 * Pow256(7);
  }

  /** Whatever is printed is read back, through all three length forms, masked or not, and nothing of
      what follows is touched. */
  lemma ParseEncode(f: Frame, key: Option<mask>, rest: seq<byte>)
    requires f.Sendable()
    ensures Parse(Encode(f, key) + rest) == Parsed(f, rest)
  {
    hide FirstByte, SecondByte, FinOf, OpcodeOf, CodeOf, LengthCode, LengthBytes, ExtensionLength, PayloadLength,
         Masked;
    var n := |f.payload|;
    var s := Encode(f, key) + rest;
    FirstByteRead(f.fin, f.opcode);
    SecondByteRead(key.Some?, LengthCode(n));
    LengthRead(n);
    var ext := LengthBytes(n);
    var body := if key.Some? then key.value + Masked(f.payload, key.value) else f.payload;
    assert s[2..2 + |ext|] == ext && s[2 + |ext|..] == body + rest;
    var h := ParseHead(s);
    assert h == Head(f.fin, f.opcode, key.Some?, n, body + rest);
    if key.Some? {
      assert h.rest[..4] == key.value && h.rest[4..4 + n] == Masked(f.payload, key.value) && h.rest[4 + n..] == rest;
      MaskedTwice(f.payload, key.value);
    } else {
      assert h.rest[0..n] == f.payload && h.rest[n..] == rest;
    }
  }

  // ---- What is accepted beyond the printed form ------------------------------------------------

  /** The three reserved bits are clear. */
  predicate Plain(b: byte) {
    b & 0x70 == 0
  }

  lemma FirstByteIff(b: byte)
    ensures FirstByte(FinOf(b), OpcodeOf(b)) == b <==> Plain(b)
  {
  }

  lemma FlaggedIs(b: byte)
    ensures Flagged(FinOf(b), Unflagged(b)) == b
  {
  }

  lemma UnflaggedBelow(b: byte)
    ensures Index(Unflagged(b)) < 128
  {
    hide Index;
    BelowIndex(Unflagged(b));
  }

  lemma BelowIndex(b: byte)
    requires b < 128
    ensures Index(b) < 128
  {
  }

  lemma SecondByteIs(b: byte)
    ensures CodeOf(b) < 128 && SecondByte(FinOf(b), CodeOf(b)) == b
  {
    hide ByteAt, Index, Flagged, Unflagged, FinOf;
    UnflaggedBelow(b);
    ByteAtIndex(Unflagged(b));
    FlaggedIs(b);
  }

  /** The masking key of the frame at the front, if it is masked. */
  function KeyOf(s: seq<byte>): Option<mask>
    requires ParseHead(s).Head? && (ParseHead(s).masked ==> |ParseHead(s).rest| >= 4)
  {
    if ParseHead(s).masked then Some(ParseHead(s).rest[..4]) else None
  }

  /** The frame at the front states its length in the shortest form. */
  predicate Shortest(s: seq<byte>)
    requires ParseHead(s).Head?
  {
    CodeOf(s[1]) == LengthCode(ParseHead(s).length)
  }

  lemma BodyIs(h: Head, p: Parsed)
    requires h.Head? && p == ParseBody(h) && p.Parsed?
    ensures |p.frame.payload| == h.length && p.frame.fin == h.fin && p.frame.opcode == h.opcode
    ensures h.masked ==> |h.rest| >= 4 && h.rest == h.rest[..4] + Masked(p.frame.payload, h.rest[..4]) + p.rest
    ensures !h.masked ==> h.rest == p.frame.payload + p.rest
  {
    hide Masked;
    var start := if h.masked then 4 else 0;
    ThreeParts(h.rest, start, start + h.length);
    if h.masked { MaskedTwice(h.rest[4..4 + h.length], h.rest[..4]); }
  }

  lemma ThreeParts(s: seq<byte>, m: nat, n: nat)
    requires m <= n <= |s|
    ensures s == s[..m] + s[m..n] + s[n..]
  {
  }

  lemma LengthIs(code: nat, extension: seq<byte>)
    requires code < 128 && |extension| == ExtensionLength(code) && code == LengthCode(PayloadLength(code, extension))
    ensures LengthBytes(PayloadLength(code, extension)) == extension
  {
    hide FromBE, ToBE;
    if ExtensionLength(code) > 0 { ToFromBE(extension); }
  }

  /** The header and the body of the printed form. */
  lemma PrintedParts(s: seq<byte>)
    requires Parse(s).Parsed?
    ensures ParseHead(s).masked ==> |ParseHead(s).rest| >= 4
    ensures var h := ParseHead(s);
      Encode(Parse(s).frame, KeyOf(s)) + Parse(s).rest
      == [FirstByte(h.fin, h.opcode), SecondByte(h.masked, LengthCode(h.length))] + LengthBytes(h.length) + h.rest
  {
    hide FirstByte, SecondByte, FinOf, OpcodeOf, CodeOf, LengthCode, LengthBytes, ExtensionLength, PayloadLength,
         Masked, ParseBody;
    BodyIs(ParseHead(s), Parse(s));
  }

  /** The header and the body as they were read. */
  lemma ReadParts(s: seq<byte>)
    requires ParseHead(s).Head?
    ensures var code := CodeOf(s[1]);
      2 + ExtensionLength(code) <= |s| && s == [s[0], s[1]] + s[2..2 + ExtensionLength(code)] + ParseHead(s).rest
  {
    hide FinOf, OpcodeOf, CodeOf, ExtensionLength, PayloadLength;
  }

  /** A frame is taken in the form in which it would be printed exactly when its reserved bits are clear and
      its length is in the shortest form; any other form of the same frame is taken as well. */
  lemma PrintedFormIff(s: seq<byte>)
    requires Parse(s).Parsed?
    ensures ParseHead(s).masked ==> |ParseHead(s).rest| >= 4
    ensures s == Encode(Parse(s).frame, KeyOf(s)) + Parse(s).rest <==> Plain(s[0]) && Shortest(s)
  {
    hide FirstByte, SecondByte, FinOf, OpcodeOf, CodeOf, LengthCode, LengthBytes, ExtensionLength, PayloadLength,
         Masked, Plain, ParseBody, Encode;
    var h, code := ParseHead(s), CodeOf(s[1]);
    PrintedParts(s);
    ReadParts(s);
    FirstByteIff(s[0]);
    SecondByteIs(s[1]);
    if Shortest(s) {
      LengthIs(code, s[2..2 + ExtensionLength(code)]);
    } else {
      SecondByteRead(h.masked, LengthCode(h.length));
    }
    var printed := Encode(Parse(s).frame, KeyOf(s)) + Parse(s).rest;
    assert printed[0] == FirstByte(h.fin, h.opcode) && printed[1] == SecondByte(h.masked, LengthCode(h.length));
  }

  /** The three length forms on bytes: 125 at most in the second byte, two bytes after 126, eight after 127, high
      byte first. */
  lemma LengthForms(s: seq<byte>)
    requires |s| >= 10
    ensures s[1] < 126 ==> ParseHead(s) == Head(s[0] >= 0x80, s[0] & 0xF, false, s[1] as int, s[2..])
    ensures s[1] == 126 ==>
      ParseHead(s) == Head(s[0] >= 0x80, s[0] & 0xF, false, 256 * Index(s[2]) + Index(s[3]), s[4..])
    ensures s[1] == 127 && (forall i :: 2 <= i < 7 ==> s[i] == 0) ==>
      ParseHead(s) == Head(s[0] >= 0x80, s[0] & 0xF, false, 65536 * Index(s[7]) + 256 * Index(s[8]) + Index(s[9]), s[10..])
    ensures s[1] >= 0x80 ==> ParseHead(s).Head? && ParseHead(s).masked
  {
    FlagIs(s[0]);
    FlagIs(s[1]);
    CodeIs(s[1]);
    hide FinOf, OpcodeOf, CodeOf;
    assert OpcodeOf(s[0]) == s[0] & 0xF by { OpcodeIs(s[0]); }
    TwoBytesBE(s[2..4]);
    if s[1] == 127 && forall i :: 2 <= i < 7 ==> s[i] == 0 { EightBytesBE(s[2..10]); }
    hide FromBE, Index;
  }

  /** A frame is refused for its length exactly when it states more than 4 MiB, whatever follows. */
  lemma TooLongIff(s: seq<byte>)
    requires ParseHead(s).Head?
    ensures Parse(s) == TooLong(ParseHead(s).rest) <==> ParseHead(s).length > 4_194_304
  {
    hide ParseHead, Masked;
  }

  lemma OpcodeIs(b: byte)
    ensures OpcodeOf(b) == b & 0xF
  {
  }

  lemma FlagIs(b: byte)
    ensures FinOf(b) <==> b >= 0x80
  {
  }

  lemma CodeIs(b: byte)
    ensures b < 128 ==> CodeOf(b) == b as int
  {
    assert b < 128 ==> Unflagged(b) == b;
    hide Unflagged;
  }

  lemma TwoBytesBE(b: seq<byte>)
    requires |b| == 2
    ensures FromBE(b) == 256 * Index(b[0]) + Index(b[1])
  {
    hide Index;
    assert b[..1][..0] == [];
    assert FromBE(b[..1]) == Index(b[0]);
  }

  lemma EightBytesBE(b: seq<byte>)
    requires |b| == 8 && forall i :: 0 <= i < 5 ==> b[i] == 0
    ensures FromBE(b) == 65536 * Index(b[5]) + 256 * Index(b[6]) + Index(b[7])
  {
    assert Index(0) == 0;
    hide Index;
    assert FromBE(b[..0]) == 0;
    assert b[..1][..0] == b[..0] && FromBE(b[..1]) == 0;
    assert b[..2][..1] == b[..1] && FromBE(b[..2]) == 0;
    assert b[..3][..2] == b[..2] && FromBE(b[..3]) == 0;
    assert b[..4][..3] == b[..3] && FromBE(b[..4]) == 0;
    assert b[..5][..4] == b[..4] && FromBE(b[..5]) == 0;
    assert b[..6][..5] == b[..5] && FromBE(b[..6]) == Index(b[5]);
    assert b[..7][..6] == b[..6] && FromBE(b[..7]) == 256 * Index(b[5]) + Index(b[6]);
  }

  /** One byte of text with its length in three bytes. */
  lemma OverlongAccepted(b: byte)
    ensures var s := [0x81, 0x7E, 0x00, 0x01, b]; Parse(s) == Parsed(Frame(true, 1, [b]), []) && !Shortest(s)
  {
    hide ByteAt;
    var s := [0x81, 0x7E, 0x00, 0x01, b];
    OverlongHead(s[0], s[1]);
    var ext: seq<byte> := [0x00, 0x01];
    assert s[2..4] == ext && s[4..] == [b];
    OverlongLength();
    hide CodeOf, FinOf, OpcodeOf, FromBE;
    assert ParseHead(s) == Head(true, 1, false, 1, [b]);
    assert [b][0..1] == [b];
  }

  lemma OverlongHead(b1: byte, b2: byte)
    requires b1 == 0x81 && b2 == 0x7E
    ensures FinOf(b1) && OpcodeOf(b1) == 1 && !FinOf(b2) && CodeOf(b2) == 126
  {
    assert Unflagged(b2) == 0x7E;
  }

  lemma OverlongLength()
    ensures FromBE([0x00, 0x01]) == 1
  {
    assert FromBE([0x00]) == 0;
    assert [0x00, 0x01][..1] == [0x00 as byte];
  }

  // ---- Receiving a message -------------------------------------------------------------------

  datatype Outcome = Message(raw: seq<byte>) | Closed | EndOfInput | FrameTooLong

  /** How a call ends, the input it leaves, and the payloads of the pings it met. */
  datatype Reception = Reception(outcome: Outcome, rest: seq<byte>, pings: seq<seq<byte>>)

  /** A call that has joined the fragments in held so far. */
  function Receive(s: seq<byte>, held: seq<byte>): Reception
    decreases |s|
  {
    match Parse(s)
    case Short => Reception(EndOfInput, [], [])
    case TooLong(rest) => Reception(FrameTooLong, rest, [])
    case Parsed(f, rest) =>
      if f.opcode == CLOSE then Reception(Closed, rest, [])
      else if f.opcode == PING then
        var r := Receive(rest, held);
        r.(pings := [f.payload] + r.pings)
      else if f.Data() && f.fin then Reception(Message(held + f.payload), rest, [])
      else if f.Data() then Receive(rest, held + f.payload)
      else Receive(rest, held)
  }

  /** The frames of one message: fragments, the last of them final, with anything but a close frame
      in between. */
  predicate OneMessage(fs: seq<Frame>) {
    && |fs| > 0
    && (forall i :: 0 <= i < |fs| ==> fs[i].Sendable() && fs[i].opcode != CLOSE)
    && (forall i :: 0 <= i < |fs| - 1 ==> !(fs[i].Data() && fs[i].fin))
    && fs[|fs| - 1].Data() && fs[|fs| - 1].fin
  }

  function DataOf(fs: seq<Frame>): seq<byte> {
    if fs == [] then [] else (if fs[0].Data() then fs[0].payload else []) + DataOf(fs[1..])
  }

  function PingsOf(fs: seq<Frame>): seq<seq<byte>> {
    if fs == [] then [] else (if fs[0].opcode == PING then [fs[0].payload] else []) + PingsOf(fs[1..])
  }

  function EncodeAll(fs: seq<Frame>, keys: seq<Option<mask>>): seq<byte>
    requires |fs| == |keys|
  {
    if fs == [] then [] else Encode(fs[0], keys[0]) + EncodeAll(fs[1..], keys[1..])
  }

  /** However a message is cut into fragments and masked, and whatever pings and pongs come between
      them, a call returns the fragments joined, has met every ping once and in order, and leaves the
      input that follows the message for the next call. */
  lemma {:induction false} MessageReceived(fs: seq<Frame>, keys: seq<Option<mask>>, held: seq<byte>, rest: seq<byte>)
    requires |fs| == |keys| && OneMessage(fs)
    ensures Receive(EncodeAll(fs, keys) + rest, held) == Reception(Message(held + DataOf(fs)), rest, PingsOf(fs))
    decreases |fs|
  {
    hide Parse, Encode;
    var f, tail := fs[0], EncodeAll(fs[1..], keys[1..]) + rest;
    assert EncodeAll(fs, keys) + rest == Encode(f, keys[0]) + tail;
    ParseEncode(f, keys[0], tail);
    if |fs| == 1 {
      assert fs[1..] == [] && tail == rest;
      assert DataOf(fs) == f.payload && PingsOf(fs) == [];
    } else {
      assert OneMessage(fs[1..]);
      var joined := if f.Data() then held + f.payload else held;
      MessageReceived(fs[1..], keys[1..], joined, rest);
      assert joined + DataOf(fs[1..]) == held + DataOf(fs);
    }
  }

  /** A ping is answered and a frame of an unknown kind skipped, final or not and however long. */
  lemma OtherFrames(f: Frame, key: Option<mask>, rest: seq<byte>, held: seq<byte>)
    requires f.Sendable() && f.opcode != CLOSE && !f.Data()
    ensures var r := Receive(rest, held);
      Receive(Encode(f, key) + rest, held) == r.(pings := (if f.opcode == PING then [f.payload] else []) + r.pings)
  {
    hide Parse, Encode;
    ParseEncode(f, key, rest);
  }

  /** What the first byte of a whole frame calls for: 0x88 closes, 0x89 is a ping, 0x80 to 0x82 end a message and 0x00
      to 0x02 go on with one. */
  lemma FirstByteCalls(s: seq<byte>, held: seq<byte>)
    requires Parse(s).Parsed?
    ensures var Parsed(f, rest) := Parse(s);
      && (s[0] == 0x88 ==> Receive(s, held) == Reception(Closed, rest, []))
      && (s[0] == 0x89 ==>
           var r := Receive(rest, held); Receive(s, held) == Reception(r.outcome, r.rest, [f.payload] + r.pings))
      && (0x80 <= s[0] <= 0x82 ==> Receive(s, held) == Reception(Message(held + f.payload), rest, []))
      && (s[0] <= 0x02 ==> Receive(s, held) == Receive(rest, held + f.payload))
  {
    FirstByteOf(s);
    hide Parse;
  }

  lemma FirstByteOf(s: seq<byte>)
    requires Parse(s).Parsed?
    ensures var f := Parse(s).frame; f.fin == (s[0] >= 0x80) && f.opcode == s[0] & 0xF
  {
    FlagIs(s[0]);
    hide FinOf, Masked;
  }

  // ---- The connection --------------------------------------------------------------------------

  /** The pongs that answer pings, the k-th frame of the connection being masked with keys(k). */
  function Pongs(pings: seq<seq<byte>>, keys: nat -> mask, k: nat): seq<byte> {
    if pings == [] then []
    else Encode(Frame(true, PONG, pings[0]), Some(keys(k))) + Pongs(pings[1..], keys, k + 1)
  }

  lemma {:induction false} PongsLast(pings: seq<seq<byte>>, p: seq<byte>, keys: nat -> mask, k: nat)
    ensures Pongs(pings + [p], keys, k)
         == Pongs(pings, keys, k) + Encode(Frame(true, PONG, p), Some(keys(k + |pings|)))
    decreases |pings|
  {
    hide Encode;
    if pings == [] {
      assert [p][1..] == [] && [] + [p] == [p];
    } else {
      assert (pings + [p])[0] == pings[0] && (pings + [p])[1..] == pings[1..] + [p];
      PongsLast(pings[1..], p, keys, k + 1);
    }
  }

  /** A pong on bytes: 0x8A, the masking bit and the length, the key, and the payload of the ping, masked. */
  lemma PongBytes(pings: seq<seq<byte>>, keys: nat -> mask, k: nat)
    requires pings != [] && |pings[0]| < 126
    ensures var sent, n := Pongs(pings, keys, k), |pings[0]|;
      && |sent| >= 6 + n && sent[0] == 0x8A && Index(sent[1]) == 128 + n && sent[2..6] == keys(k)
      && forall i :: 0 <= i < n ==> sent[6 + i] == Xor(pings[0][i], keys(k)[i % 4])
  {
    hide FirstByte, SecondByte, Masked, ByteAt, Index, Xor, Encode, Pongs;
    var n, key := |pings[0]|, keys(k);
    PongOpens();
    FlaggedCount(n);
    ShortMasked(pings[0], key);
    PongsFirst(pings, keys, k);
  }

  lemma PongOpens()
    ensures FirstByte(true, PONG) == 0x8A
  {
  }

  lemma PongsFirst(pings: seq<seq<byte>>, keys: nat -> mask, k: nat)
    requires pings != []
    ensures Encode(Frame(true, PONG, pings[0]), Some(keys(k))) <= Pongs(pings, keys, k)
  {
    hide Encode;
  }

  lemma ShortMasked(payload: seq<byte>, key: mask)
    requires |payload| < 126
    ensures var sent, n := Encode(Frame(true, PONG, payload), Some(key)), |payload|;
      && |sent| == 6 + n && sent[0] == FirstByte(true, PONG) && sent[1] == SecondByte(true, n) && sent[2..6] == key
      && forall i :: 0 <= i < n ==> sent[6 + i] == Xor(payload[i], key[i % 4])
  {
    hide FirstByte, SecondByte, Masked, Xor;
    var m := Masked(payload, key);
    assert Encode(Frame(true, PONG, payload), Some(key)) == [FirstByte(true, PONG), SecondByte(true, |payload|)] + key + m;
  }

  lemma FlaggedCount(n: nat)
    requires n < 126
    ensures Index(SecondByte(true, n)) == 128 + n
  {
    hide ByteAt;
    IndexByteAt(n);
    ByteAtBelow(n);
    FlaggedValue(ByteAt(n));
  }

  lemma FlaggedValue(b: byte)
    requires b < 0x80
    ensures Index(Flagged(true, b)) == 128 + Index(b)
  {
    assert Flagged(true, b) == 0x80 + b;
    hide Flagged;
  }

  function Joined(fragments: seq<seq<byte>>): seq<byte> {
    if fragments == [] then [] else Joined(fragments[..|fragments| - 1]) + fragments[|fragments| - 1]
  }

  class Connection {
    /** What the peer will yet send before it ends its side, and what it has been sent. */
    var incoming: seq<byte>
    var outgoing: seq<byte>
    var closed: bool
    /** Frames sent so far; each takes a fresh masking key. */
    var sent: nat
    const keys: nat -> mask

    constructor (input: seq<byte>, keys: nat -> mask)
      ensures incoming == input && outgoing == [] && !closed && sent == 0 && this.keys == keys
    {
      incoming, outgoing, closed, sent := input, [], false, 0;
      this.keys := keys;
    }

    /** socket.recv: some of the bytes asked for, none only at the end of the input. */
    method Recv(n: nat) returns (chunk: seq<byte>)
      requires n > 0
      modifies this`incoming
      ensures |chunk| <= n && old(incoming) == chunk + incoming
      ensures chunk == [] <==> old(incoming) == []
    {
      if incoming == [] {
        return [];
      }
      var k: nat :| 1 <= k <= n && k <= |incoming|;
      chunk := incoming[..k];
      incoming := incoming[k..];
    }

    /** Exactly n bytes, however the socket cuts them up. */
    method RecvExact(n: nat) returns (r: Option<seq<byte>>)
      modifies this`incoming
      ensures n <= |old(incoming)| ==> r == Some(old(incoming)[..n]) && incoming == old(incoming)[n..]
      ensures n > |old(incoming)| ==> r == None && incoming == []
    {
      var buf: seq<byte> := [];
      while |buf| < n
        invariant |buf| <= n && old(incoming) == buf + incoming
        decreases n - |buf|
      {
        var chunk := Recv(n - |buf|);
        if chunk == [] {
          return None;
        }
        buf := buf + chunk;
      }
      return Some(buf);
    }

    /** Sends one final frame, masked; refused when the connection is closed. */
    method SendFrame(opcode: byte, payload: seq<byte>) returns (ok: bool)
      modifies this`outgoing, this`sent
      ensures ok == !closed
      ensures ok ==> outgoing == old(outgoing) + Encode(Frame(true, opcode, payload), Some(keys(old(sent))))
      ensures ok ==> sent == old(sent) + 1
      ensures !ok ==> outgoing == old(outgoing) && sent == old(sent)
    {
      if closed {
        return false;
      }
      hide FirstByte, SecondByte, Masked;
      var key := keys(sent);
      sent := sent + 1;
      var header := [FirstByte(true, opcode)];
      var length := |payload|;
      if length < 126 {
        header := header + [SecondByte(true, length)];
      } else if length < 65536 {
        header := header + [SecondByte(true, 126)] + ToBE(length, 2);
      } else {
        header := header + [SecondByte(true, 127)] + ToBE(length, 8);
      }
      header := header + key;
      assert header + Masked(payload, key) == Encode(Frame(true, opcode, payload), Some(key));
      outgoing := outgoing + (header + Masked(payload, key));
      return true;
    }

    method ReadHead() returns (h: Head)
      modifies this`incoming
      ensures h == ParseHead(old(incoming))
      ensures incoming == if h.Head? then h.rest else []
    {
      hide FinOf, OpcodeOf, CodeOf, ExtensionLength, PayloadLength;
      var start := RecvExact(2);
      if start.None? {
        return ShortHead;
      }
      var b1, b2 := start.value[0], start.value[1];
      var code := CodeOf(b2);
      ghost var end := 2 + ExtensionLength(code);
      var extension := RecvExact(ExtensionLength(code));
      if extension.None? {
        return ShortHead;
      }
      assert extension.value == old(incoming)[2..end] && incoming == old(incoming)[end..];
      return Head(FinOf(b1), OpcodeOf(b1), FinOf(b2), PayloadLength(code, extension.value), incoming);
    }

    /** Reads one frame as Parse does. */
    method ReadFrame() returns (p: Parsed)
      modifies this`incoming
      ensures p == Parse(old(incoming))
      ensures incoming == if p.Short? then [] else p.rest
    {
      hide ParseHead, Masked;
      var h := ReadHead();
      if h.ShortHead? {
        return Short;
      }
      if h.length > LIMIT {
        return TooLong(incoming);
      }
      var key: Option<seq<byte>> := None;
      if h.masked {
        key := RecvExact(4);
        if key.None? {
          return Short;
        }
      }
      var body := RecvExact(h.length);
      if body.None? {
        return Short;
      }
      var payload := body.value;
      if h.masked {
        payload := Masked(payload, key.value);
      }
      ghost var start := if h.masked then 4 else 0;
      assert body.value == h.rest[start..start + h.length] && incoming == h.rest[start + h.length..];
      return Parsed(Frame(h.fin, h.opcode, payload), incoming);
    }

    /** The next message, pings answered on the way. */
    method RecvMessage() returns (r: Outcome)
      modifies this
      ensures old(closed) ==> r == Closed && closed && incoming == old(incoming) && outgoing == old(outgoing)
      ensures !old(closed) ==>
        var expected := Receive(old(incoming), []);
        && r == expected.outcome
        && incoming == expected.rest
        && outgoing == old(outgoing) + Pongs(expected.pings, keys, old(sent))
        && sent == old(sent) + |expected.pings|
        && closed == r.Closed?
    {
      hide Parse, Encode, Receive, Continues, Pongs;
      ghost var expected, done := Receive(incoming, []), [];
      var fragments: seq<seq<byte>> := [];
      ContinuesFirst(incoming);
      NoPongs(keys, sent);
      while !closed
        invariant closed == old(closed)
        invariant !closed ==> Continues(expected, done, incoming, Joined(fragments))
        invariant closed ==> incoming == old(incoming) && done == []
        invariant outgoing == old(outgoing) + Pongs(done, keys, old(sent))
        invariant sent == old(sent) + |done|
        decreases |incoming|, !closed
      {
        ContinuesStep(expected, done, incoming, Joined(fragments));
        var p := ReadFrame();
        if p.Short? {
          return EndOfInput;
        }
        if p.TooLong? {
          return FrameTooLong;
        }
        var f := p.frame;
        if f.opcode == CLOSE {
          closed := true;
          return Closed;
        }
        if f.opcode == PING {
          var ok := SendFrame(PONG, f.payload);
          PongsLast(done, f.payload, keys, old(sent));
          done := done + [f.payload];
        } else if f.Data() {
          fragments := fragments + [f.payload];
          JoinedLast(fragments, f.payload);
          if f.fin {
            return Message(Joined(fragments));
          }
        }
      }
      return Closed;
    }
  }

  /** The call expected stands for goes on from the input s, with the pings in done already met. */
  predicate Continues(expected: Reception, done: seq<seq<byte>>, s: seq<byte>, held: seq<byte>) {
    var now := Receive(s, held);
    now.outcome == expected.outcome && now.rest == expected.rest && done + now.pings == expected.pings
  }

  lemma ContinuesFirst(s: seq<byte>)
    ensures Continues(Receive(s, []), [], s, [])
  {
    hide Receive;
  }

  lemma NoPongs(keys: nat -> mask, k: nat)
    ensures Pongs([], keys, k) == []
  {
  }

  /** What the next frame settles, and what it leaves open. */
  lemma ContinuesStep(expected: Reception, done: seq<seq<byte>>, s: seq<byte>, held: seq<byte>)
    requires Continues(expected, done, s, held)
    ensures var p := Parse(s);
      && (p.Short? ==> expected == Reception(EndOfInput, [], done))
      && (p.TooLong? ==> expected == Reception(FrameTooLong, p.rest, done))
      && (p.Parsed? ==>
        var f := p.frame;
        if f.opcode == CLOSE then expected == Reception(Closed, p.rest, done)
        else if f.opcode == PING then Continues(expected, done + [f.payload], p.rest, held)
        else if !f.Data() then Continues(expected, done, p.rest, held)
        else if f.fin then expected == Reception(Message(held + f.payload), p.rest, done)
        else Continues(expected, done, p.rest, held + f.payload))
  {
    hide Parse;
    var p := Parse(s);
    assert done + [] == done;
    if p.Parsed? && p.frame.opcode == PING {
      assert done + ([p.frame.payload] + Receive(p.rest, held).pings)
          == (done + [p.frame.payload]) + Receive(p.rest, held).pings;
    }
  }

  lemma JoinedLast(fragments: seq<seq<byte>>, last: seq<byte>)
    requires |fragments| > 0 && fragments[|fragments| - 1] == last
    ensures Joined(fragments) == Joined(fragments[..|fragments| - 1]) + last
  {
  }
}
