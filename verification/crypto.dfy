/** Bytes, keys and the cryptographic primitives the system calls into (AES-256-GCM, X25519,
    HKDF-SHA256, SHA-256, Base64, UTF-8).

    The primitives are not re-implemented: they are the fields of a `Primitives` value that
    every operation receives, and `Sound` lists the facts about them the proofs rely on. The
    shared "IV followed by ciphertext" framing used by every component is defined here once. */
module Crypto {
  import opened Wrappers

  newtype uint8 = x: int | 0 <= x < 256

  type Bytes = seq<uint8>

  /** AES-GCM nonce length used throughout (section 5.2.1.1 of NIST SP 800-38D recommends 96 bits). */
  const IvLength: nat := 12
  /** GCM authentication tag length appended by the JCE and by the `aes-gcm` crate. */
  const TagLength: nat := 16
  /** AES-256 and X25519 key length. */
  const KeyLength: nat := 32

  datatype Primitives = Primitives(
    /** AES-256-GCM encryption `(key, iv, plaintext)`; `None` is a thrown exception. */
    seal: (Bytes, Bytes, Bytes) -> Option<Bytes>,
    /** AES-256-GCM decryption `(key, iv, ciphertext‖tag)`; `None` is a failed tag check. */
    open: (Bytes, Bytes, Bytes) -> Option<Bytes>,
    /** X25519 public key of a private scalar (section 6.1 of RFC 7748). */
    publicKeyOf: Bytes -> Bytes,
    /** X25519 function `(private scalar, peer public key)`. */
    x25519: (Bytes, Bytes) -> Bytes,
    /** HKDF-SHA256 `(ikm, salt, info, length)` (section 2 of RFC 5869); a null salt is `None`. */
    hkdf: (Bytes, Option<Bytes>, Bytes, nat) -> Bytes,
    sha256: Bytes -> Bytes,
    /** Standard Base64 with padding (section 4 of RFC 4648). */
    base64Encode: Bytes -> string,
    base64Decode: string -> Option<Bytes>,
    utf8Encode: string -> Bytes,
    utf8Decode: Bytes -> string
  )

  /** What the proofs assume of the primitives. */
  ghost predicate Sound(p: Primitives) {
    && (forall k, iv, m | |k| == KeyLength && |iv| == IvLength :: p.seal(k, iv, m).Some?)
    && (forall k, iv, m | p.seal(k, iv, m).Some? ::
          |p.seal(k, iv, m).value| == |m| + TagLength && p.open(k, iv, p.seal(k, iv, m).value) == Some(m))
    && (forall x :: |p.publicKeyOf(x)| == KeyLength)
    && (forall a, b :: p.x25519(a, p.publicKeyOf(b)) == p.x25519(b, p.publicKeyOf(a)))
    && (forall ikm, salt, info, n :: |p.hkdf(ikm, salt, info, n)| == n)
    && (forall b :: |p.sha256(b)| == 32)
    && (forall b :: p.base64Decode(p.base64Encode(b)) == Some(b))
    && p.base64Encode([]) == ""
    && (forall s :: p.utf8Decode(p.utf8Encode(s)) == s)
  }

  /** An X25519 key pair produced from a random private scalar. */
  datatype KeyPair = KeyPair(privateKey: Bytes, publicKey: Bytes)

  /** `X25519PrivateKeyParameters(random)` followed by `generatePublicKey()`. */
  function GenerateKeyPair(p: Primitives, randomScalar: Bytes): (kp: KeyPair)
    ensures kp.privateKey == randomScalar
    ensures Sound(p) ==> |kp.publicKey| == KeyLength
  {
    KeyPair(randomScalar, p.publicKeyOf(randomScalar))
  }

  /** Every byte is zero: the X25519 output Bouncy Castle's agreement refuses. */
  predicate AllZero(b: Bytes) {
    forall i | 0 <= i < |b| :: b[i] == 0
  }

  /** Bouncy Castle `X25519Agreement.calculateAgreement`: throws on an all-zero secret. */
  function Agree(p: Primitives, privateKey: Bytes, peerPublicKey: Bytes): (r: Option<Bytes>)
    ensures r.Some? <==> !AllZero(p.x25519(privateKey, peerPublicKey))
    ensures r.Some? ==> r.value == p.x25519(privateKey, peerPublicKey)
  {
    var s := p.x25519(privateKey, peerPublicKey);
    if AllZero(s) then None else Some(s)
  }

  /** Both parties of a key agreement obtain the same secret, and one fails exactly when the
      other does. */
  lemma AgreeSymmetric(p: Primitives, a: Bytes, b: Bytes)
    requires Sound(p)
    ensures Agree(p, a, p.publicKeyOf(b)) == Agree(p, b, p.publicKeyOf(a))
  {
  }

  /** `X25519PublicKeyParameters(bytes)` on Base64 text: the text must decode to exactly
      32 bytes. */
  function DecodePublicKey(p: Primitives, text: string): (r: Option<Bytes>)
    ensures r.Some? <==> p.base64Decode(text).Some? && |p.base64Decode(text).value| == KeyLength
    ensures r.Some? ==> r.value == p.base64Decode(text).value
  {
    match p.base64Decode(text)
    case None => None
    case Some(b) => if |b| != KeyLength then None else Some(b)
  }

  /** A public key sent as Base64 text arrives as the same key. */
  lemma DecodeEncodedPublicKey(p: Primitives, key: Bytes)
    requires Sound(p) && |key| == KeyLength
    ensures DecodePublicKey(p, p.base64Encode(key)) == Some(key)
  {
  }

  /** The wire framing shared by every component: the IV followed by the GCM output. */
  function SealFramed(p: Primitives, key: Bytes, iv: Bytes, plaintext: Bytes): (r: Option<Bytes>)
    ensures r.Some? <==> p.seal(key, iv, plaintext).Some?
    ensures r.Some? ==>
              && |r.value| == |iv| + |p.seal(key, iv, plaintext).value|
              && r.value[..|iv|] == iv && r.value[|iv|..] == p.seal(key, iv, plaintext).value
  {
    match p.seal(key, iv, plaintext)
    case None => None
    case Some(c) => Some(iv + c)
  }

  /** Splits a frame at the 12-byte IV and decrypts the rest; shorter input fails. */
  function OpenFramed(p: Primitives, key: Bytes, frame: Bytes): (r: Option<Bytes>)
    ensures |frame| < IvLength ==> r.None?
    ensures r.Some? ==> r == p.open(key, frame[..IvLength], frame[IvLength..])
  {
    if |frame| < IvLength then None else p.open(key, frame[..IvLength], frame[IvLength..])
  }

  /** A 32-byte key and a 12-byte IV always seal, and the frame opens to the plaintext with
      the same key; the frame is the plaintext plus IV and tag. */
  lemma OpenSealFramed(p: Primitives, key: Bytes, iv: Bytes, plaintext: Bytes)
    requires Sound(p) && |key| == KeyLength && |iv| == IvLength
    ensures SealFramed(p, key, iv, plaintext).Some?
    ensures |SealFramed(p, key, iv, plaintext).value| == IvLength + |plaintext| + TagLength
    ensures OpenFramed(p, key, SealFramed(p, key, iv, plaintext).value) == Some(plaintext)
  {
    var c := p.seal(key, iv, plaintext).value;
    assert (iv + c)[..IvLength] == iv && (iv + c)[IvLength..] == c;
  }

  /** Text encryption as the Kotlin components do it: UTF-8, seal, frame, Base64. `None` is a
      thrown exception, which each caller replaces by its own fallback. */
  function EncryptText(p: Primitives, key: Bytes, iv: Bytes, text: string): (r: Option<string>)
    ensures r.Some? <==> p.seal(key, iv, p.utf8Encode(text)).Some?
  {
    match SealFramed(p, key, iv, p.utf8Encode(text))
    case None => None
    case Some(frame) => Some(p.base64Encode(frame))
  }

  /** The inverse of `EncryptText`: Base64, split, open, UTF-8. */
  function DecryptText(p: Primitives, key: Bytes, text: string): (r: Option<string>)
    ensures p.base64Decode(text).None? ==> r.None?
    ensures p.base64Decode(text).Some? && |p.base64Decode(text).value| < IvLength ==> r.None?
  {
    match p.base64Decode(text)
    case None => None
    case Some(frame) =>
      match OpenFramed(p, key, frame)
      case None => None
      case Some(plain) => Some(p.utf8Decode(plain))
  }

  /** Text encrypted under a 32-byte key decrypts to itself under the same key. */
  lemma DecryptEncryptedText(p: Primitives, key: Bytes, iv: Bytes, text: string)
    requires Sound(p) && |key| == KeyLength && |iv| == IvLength
    ensures EncryptText(p, key, iv, text).Some?
    ensures DecryptText(p, key, EncryptText(p, key, iv, text).value) == Some(text)
  {
    OpenSealFramed(p, key, iv, p.utf8Encode(text));
  }
}
