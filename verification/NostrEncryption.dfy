/** Direct messages between two holders of x-only keys: NIP-44 and NIP-04 over the agreed secret. */
module NostrEncryption {
  import opened Bip340
  import opened Bytes
  import opened Primitives
  import opened ScalarMultiplication
  import opened Secp256k1
  import opened Wrappers
  import Aes256
  import Cbc = Aes256Cbc
  import Nip44

  datatype Failure =
    | Agreement(agreement: Bip340.Error)
    | Envelope(envelope: Nip44.Error)
    | Chaining(chaining: Aes256.Error)
    | MissingVector
    | MalformedBase64
    | MalformedUtf8

  // ---- NIP-44 ----------------------------------------------------------------------------------

  /** The bytes of "nip44-v2". */
  const SALT: seq<byte> := [0x6E, 0x69, 0x70, 0x34, 0x34, 0x2D, 0x76, 0x32]

  ghost function ConversationKey(c: Curve, lib: Library, priv: seq<byte>, peer: seq<byte>): Result<seq<byte>, Failure>
    requires Group(c)
  {
    match SharedX(c, priv, peer)
    case Err(e) => Err(Agreement(e))
    case Ok(x) => Ok(lib.hmac(SALT, x))
  }

  ghost function Nip44Encrypt(c: Curve, lib: Library, plaintext: string, priv: seq<byte>, peer: seq<byte>,
                              nonce: seq<byte>): Result<string, Failure>
    requires Group(c) && lib.DigestLaw()
  {
    match ConversationKey(c, lib, priv, peer)
    case Err(e) => Err(e)
    case Ok(key) =>
      match Nip44.EncryptText(lib, plaintext, key, nonce)
      case Err(e) => Err(Envelope(e))
      case Ok(payload) => Ok(payload)
  }

  ghost function Nip44Decrypt(c: Curve, lib: Library, payload: string, priv: seq<byte>, peer: seq<byte>):
      Result<string, Failure>
    requires Group(c) && lib.DigestLaw()
  {
    match ConversationKey(c, lib, priv, peer)
    case Err(e) => Err(e)
    case Ok(key) =>
      match Nip44.DecryptText(lib, payload, key)
      case Err(e) => Err(Envelope(e))
      case Ok(plaintext) => Ok(plaintext)
  }

  /** The salt spells its name; the conversation key is the code, under it, of the abscissa of the product of
      both secrets and the base point. */
  lemma ConversationKeyIs(c: Curve, lib: Library, a: seq<byte>, b: seq<byte>)
    requires Group(c) && Fits(c) && PublicKey(c, a).Ok? && PublicKey(c, b).Ok?
    ensures |SALT| == |"nip44-v2"| && forall i :: 0 <= i < |SALT| ==> Index(SALT[i]) == "nip44-v2"[i] as int
    ensures FromBE(a) * FromBE(b) >= 0
    ensures var shared := Multiple(c, FromBE(a) * FromBE(b), G(c));
            shared.Affine? ==>
              ConversationKey(c, lib, a, PublicKey(c, b).value) == Ok(lib.hmac(SALT, ToBE(shared.x, 32)))
  {
    SharedXIsProduct(c, a, b);
    hide Multiple, PublicKey, SharedX, Group, FromBE, ToBE;
  }

  /** What one party seals with the other's public key, the other opens with the first one's. */
  lemma Nip44Delivery(c: Curve, lib: Library, a: seq<byte>, b: seq<byte>, plaintext: string, nonce: seq<byte>)
    requires Group(c) && Fits(c) && lib.Lawful()
    requires PublicKey(c, a).Ok? && PublicKey(c, b).Ok?
    requires SharedX(c, a, PublicKey(c, b).value).Ok?
    requires |nonce| == 32
    ensures var sent := Nip44Encrypt(c, lib, plaintext, a, PublicKey(c, b).value, nonce);
      && (sent.Ok? <==> 1 <= |lib.encodeUtf8(plaintext)| <= 65535)
      && (sent.Ok? ==> Nip44Decrypt(c, lib, sent.value, b, PublicKey(c, a).value) == Ok(plaintext))
  {
    hide SharedX, PublicKey, Group, Fits, Nip44.EncryptText, Nip44.DecryptText;
    EcdhAgreement(c, a, b);
    var key := lib.hmac(SALT, SharedX(c, a, PublicKey(c, b).value).value);
    Nip44.DecryptEncryptText(lib, plaintext, key, nonce);
  }

  // ---- NIP-04 ----------------------------------------------------------------------------------

  const MARKER: string := "?iv="

  /** Where the marker first occurs. */
  function FindMarker(s: string): (r: Option<nat>)
    ensures r.Some? ==> r.value + 4 <= |s| && s[r.value..r.value + 4] == MARKER
  {
    if |s| < 4 then None
    else if s[..4] == MARKER then Some(0)
    else
      match FindMarker(s[1..])
      case None => None
      case Some(i) => Some(i + 1)
  }

  lemma {:induction false} MarkerFound(u: string, v: string)
    requires '?' !in u
    ensures FindMarker(u + MARKER + v) == Some(|u|)
  {
    var s := u + MARKER + v;
    if u == [] {
      assert s[..4] == MARKER;
    } else {
      assert s[0] == u[0] && u[0] in u;
      assert s[1..] == u[1..] + MARKER + v;
      MarkerFound(u[1..], v);
    }
  }

  ghost function Nip04Encrypt(c: Curve, lib: Library, plaintext: string, priv: seq<byte>, peer: seq<byte>,
                              iv: seq<byte>): Result<string, Failure>
    requires Group(c)
  {
    match SharedX(c, priv, peer)
    case Err(e) => Err(Agreement(e))
    case Ok(key) =>
      match Cbc.EncryptMessage(key, iv, lib.encodeUtf8(plaintext))
      case Err(e) => Err(Chaining(e))
      case Ok(ct) => Ok(lib.encodeBase64(ct) + MARKER + lib.encodeBase64(iv))
  }

  ghost function Nip04Decrypt(c: Curve, lib: Library, payload: string, priv: seq<byte>, peer: seq<byte>):
      Result<string, Failure>
    requires Group(c)
  {
    match FindMarker(payload)
    case None => Err(MissingVector)
    case Some(i) =>
      match (lib.decodeBase64(payload[..i]), lib.decodeBase64(payload[i + 4..]))
      case (Some(ct), Some(iv)) =>
        (match SharedX(c, priv, peer)
         case Err(e) => Err(Agreement(e))
         case Ok(key) =>
           match Cbc.DecryptMessage(key, iv, ct)
           case Err(e) => Err(Chaining(e))
           case Ok(m) =>
             match lib.decodeUtf8(m)
             case None => Err(MalformedUtf8)
             case Some(plaintext) => Ok(plaintext))
      case _ => Err(MalformedBase64)
  }

  lemma SharedLength(c: Curve, priv: seq<byte>, peer: seq<byte>)
    requires Group(c) && SharedX(c, priv, peer).Ok?
    ensures |SharedX(c, priv, peer).value| == 32
  {
    hide Group, Multiple, LiftX;
  }

  /** A NIP-04 payload: the ciphertext and the vector in base64, the marker between them. */
  lemma Nip04Payload(c: Curve, lib: Library, plaintext: string, priv: seq<byte>, peer: seq<byte>, iv: seq<byte>)
    requires Group(c) && SharedX(c, priv, peer).Ok? && |iv| == 16
    ensures var ct := Cbc.EncryptMessage(SharedX(c, priv, peer).value, iv, lib.encodeUtf8(plaintext));
      ct.Ok? && Nip04Encrypt(c, lib, plaintext, priv, peer, iv)
                == Ok(lib.encodeBase64(ct.value) + "?iv=" + lib.encodeBase64(iv))
  {
    SharedLength(c, priv, peer);
    hide SharedX, Group, Cbc.CbcEncrypt, Aes256.KeySchedule;
  }

  /** Every plaintext is delivered, the empty one too. */
  lemma Nip04Delivery(c: Curve, lib: Library, a: seq<byte>, b: seq<byte>, plaintext: string, iv: seq<byte>)
    requires Group(c) && Fits(c) && lib.Lawful()
    requires PublicKey(c, a).Ok? && PublicKey(c, b).Ok?
    requires SharedX(c, a, PublicKey(c, b).value).Ok?
    requires |iv| == 16
    ensures var sent := Nip04Encrypt(c, lib, plaintext, a, PublicKey(c, b).value, iv);
      sent.Ok? && Nip04Decrypt(c, lib, sent.value, b, PublicKey(c, a).value) == Ok(plaintext)
  {
    hide SharedX, PublicKey, Group, Fits, Cbc.EncryptMessage, Cbc.DecryptMessage, FindMarker;
    EcdhAgreement(c, a, b);
    var key := SharedX(c, a, PublicKey(c, b).value).value;
    SharedLength(c, a, PublicKey(c, b).value);
    var m := lib.encodeUtf8(plaintext);
    Cbc.DecryptEncryptMessage(key, iv, m);
    var ct := Cbc.EncryptMessage(key, iv, m).value;
    var u, v := lib.encodeBase64(ct), lib.encodeBase64(iv);
    var payload := u + MARKER + v;
    MarkerFound(u, v);
    assert payload[..|u|] == u && payload[|u| + 4..] == v;
  }
}
