/** The relay's `CryptoManager::encrypt_data` / `decrypt_data`: AES-256-GCM with the random
    12-byte nonce prepended to the ciphertext. */
module RelayCrypto {
  import opened Wrappers
  import opened Crypto

  /** The message of the `aes-gcm` crate's opaque error. */
  const AeadError: string := "aead::Error"

  /** `encrypt_data(plaintext, key)` with the nonce the operating system's generator drew.
      `Key::from_slice` panics on a key that is not 32 bytes long. */
  function EncryptData(p: Primitives, plaintext: Bytes, key: Bytes, nonce: Bytes): (r: Result<Bytes, string>)
    requires |key| == KeyLength && |nonce| == IvLength
    ensures r.Success? <==> p.seal(key, nonce, plaintext).Some?
    ensures r.Success? ==> |r.value| >= IvLength && r.value[..IvLength] == nonce
    ensures r.Failure? ==> r.error == AeadError
  {
    match SealFramed(p, key, nonce, plaintext)
    case None => Failure(AeadError)
    case Some(frame) => Success(frame)
  }

  /** `decrypt_data(frame, key)`: input shorter than a nonce is refused before decryption. */
  function DecryptData(p: Primitives, frame: Bytes, key: Bytes): (r: Result<Bytes, string>)
    requires |key| == KeyLength
    ensures |frame| < IvLength <==> r == Failure("Invalid ciphertext length")
    ensures |frame| >= IvLength ==>
              (r.Success? <==> p.open(key, frame[..IvLength], frame[IvLength..]).Some?)
  {
    if |frame| < IvLength then Failure("Invalid ciphertext length")
    else
      match OpenFramed(p, key, frame)
      case None => Failure(AeadError)
      case Some(plain) => Success(plain)
  }

  /** What `encrypt_data` produces, `decrypt_data` inverts under the same key, and the frame
      is the plaintext plus nonce and tag. */
  lemma DecryptEncryptedData(p: Primitives, plaintext: Bytes, key: Bytes, nonce: Bytes)
    requires Sound(p) && |key| == KeyLength && |nonce| == IvLength
    ensures EncryptData(p, plaintext, key, nonce).Success?
    ensures |EncryptData(p, plaintext, key, nonce).value| == IvLength + |plaintext| + TagLength
    ensures DecryptData(p, EncryptData(p, plaintext, key, nonce).value, key) == Success(plaintext)
  {
    OpenSealFramed(p, key, nonce, plaintext);
  }
}
