/** The cryptographic collaborators of the server: Ed25519 signing and verification over the JSON
    text of a value, and a SHA-256 digest rendered as lower-case hex. The WebCrypto primitives are
    not modelled; they are passed to the core as the three functions of a `Suite`. */
module Crypto {

  /** A JSON Web Key, kept opaque. */
  type Jwk = string

  datatype KeyPair = KeyPair(publicKey: Jwk, privateKey: Jwk)

  /** `signData`, `verifySignature` and `hashData` over payloads of type `P` (the value whose
      JSON text is signed, verified or hashed). `verify` answers false instead of throwing. */
  datatype Suite<-P> = Suite(
    sign: (P, Jwk) -> string,
    verify: (P, string, Jwk) -> bool,
    digest: P -> string)

  /** The Ed25519 round trip for one key pair: what its private key signs, its public key accepts. */
  ghost predicate Sound<P(!new)>(suite: Suite<P>, kp: KeyPair)
  {
    forall p :: suite.verify(p, suite.sign(p, kp.privateKey), kp.publicKey)
  }

  newtype byte = x: int | 0 <= x < 256

  const HexDigits: string := "0123456789abcdef"

  /** `b.toString(16).padStart(2, "0")`: two lower-case hex digits per byte. */
  function ByteToHex(b: byte): (r: string)
    ensures |r| == 2 && r[0] in HexDigits && r[1] in HexDigits
  {
    [HexDigits[b as int / 16], HexDigits[b as int % 16]]
  }

  /** The digest bytes mapped to hex and joined, as in `hashData`. */
  function ToHex(bytes: seq<byte>): (r: string)
    ensures |r| == 2 * |bytes|
  {
    if bytes == [] then [] else ByteToHex(bytes[0]) + ToHex(bytes[1..])
  }

  /** Value of one lower-case hex digit; the inverse of indexing `HexDigits`. */
  function HexValue(c: char): (v: nat)
  {
    if '0' <= c <= '9' then c as int - '0' as int
    else if 'a' <= c <= 'f' then c as int - 'a' as int + 10
    else 0
  }

  lemma HexValueOfDigit(i: nat)
    requires i < 16
    ensures HexValue(HexDigits[i]) == i
  {
    if i < 10 {
      assert HexDigits[i] as int == '0' as int + i;
    } else {
      assert HexDigits[i] as int == 'a' as int + i - 10;
    }
  }

  /** Reading back the two digits of one byte gives the byte. */
  lemma ByteHexRoundTrip(b: byte)
    ensures DecodePair(ByteToHex(b)[0], ByteToHex(b)[1]) == b
  {
    var n := b as int;
    HexValueOfDigit(n / 16);
    HexValueOfDigit(n % 16);
    assert (n / 16) * 16 + n % 16 == n;
  }

  function DecodePair(hi: char, lo: char): byte
  {
    ((HexValue(hi) * 16 + HexValue(lo)) % 256) as byte
  }

  /** Reads a hex string back into bytes, two digits at a time. */
  function FromHex(s: string): seq<byte>
    decreases |s|
  {
    if |s| < 2 then []
    else [DecodePair(s[0], s[1])] + FromHex(s[2..])
  }

  /** The hex rendering loses nothing: every digest has exactly one hex text, so equal hashes mean
      equal digests. */
  lemma {:induction false} HexRoundTrip(bytes: seq<byte>)
    ensures FromHex(ToHex(bytes)) == bytes
  {
    if bytes != [] {
      var b := bytes[0];
      var h := ToHex(bytes);
      assert h == ByteToHex(b) + ToHex(bytes[1..]);
      assert h[2..] == ToHex(bytes[1..]);
      ByteHexRoundTrip(b);
      assert h[0] == ByteToHex(b)[0] && h[1] == ByteToHex(b)[1];
      assert FromHex(h) == [DecodePair(h[0], h[1])] + FromHex(h[2..]);
      HexRoundTrip(bytes[1..]);
    }
  }

  lemma HexInjective(a: seq<byte>, b: seq<byte>)
    requires ToHex(a) == ToHex(b)
    ensures a == b
  {
    HexRoundTrip(a);
    HexRoundTrip(b);
  }
}
