/** The library calls that the message encryption rests on, as parameters with the laws it needs. */
module Primitives {
  import opened Bytes
  import opened Wrappers

  /** HMAC-SHA-256, base64 and UTF-8. */
  datatype Library = Library(
    hmac: (seq<byte>, seq<byte>) -> seq<byte>,
    encodeBase64: seq<byte> -> string,
    decodeBase64: string -> Option<seq<byte>>,
    encodeUtf8: string -> seq<byte>,
    decodeUtf8: seq<byte> -> Option<string>)
  {
    /** Digests are 32 bytes. */
    ghost predicate DigestLaw() {
      forall key, m :: |hmac(key, m)| == 32
    }

    /** Base64 decodes what it encodes, into four characters for every three bytes begun. */
    ghost predicate Base64Law() {
      forall b :: decodeBase64(encodeBase64(b)) == Some(b) && |encodeBase64(b)| == 4 * ((|b| + 2) / 3)
    }

    /** Neither '#' nor '?' is in the base64 alphabet. */
    ghost predicate AlphabetLaw() {
      forall b :: '#' !in encodeBase64(b) && '?' !in encodeBase64(b)
    }

    ghost predicate Utf8Law() {
      forall s :: decodeUtf8(encodeUtf8(s)) == Some(s)
    }

    ghost predicate Lawful() {
      DigestLaw() && Base64Law() && AlphabetLaw() && Utf8Law()
    }
  }
}
