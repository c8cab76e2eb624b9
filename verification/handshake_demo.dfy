/** The stand-alone handshake demo: two X25519 key pairs agree on a secret, HKDF-SHA256
    derives a session key from it, and a message is sealed with AES-256-GCM, packed with its
    IV, carried as Base64, unpacked and opened again. The random scalars and IV are
    parameters. */
module HandshakeDemo {
  import opened Wrappers
  import opened Crypto

  /** HKDF info string of the session key. */
  const SessionInfo: string := "X25519-HKDF-AES-Session"
  /** The message used when the text field is empty. */
  const DefaultPlaintext: string := "Hello from Alice!"

  /** Why the demo stops: each case is an exception that ends `runDemo()`. */
  datatype DemoError =
    | AgreementFailed     // the agreement is all zero
    | SecretsDiffer       // the explicit equality guard
    | EncryptionFailed
    | DecodeFailed
    | ShortPackage        // fewer bytes than an IV: the array copy throws
    | DecryptionFailed    // the tag does not verify

  /** The message of the guard's exception, which the click handler shows after "Error: ". */
  const SecretsDifferMessage: string := "Shared secrets differ!"

  /** Packing for transport: the IV followed by the ciphertext. */
  function Pack(iv: Bytes, cipherText: Bytes): (r: Bytes)
    ensures |r| == |iv| + |cipherText|
    ensures r[..|iv|] == iv && r[|iv|..] == cipherText
  {
    iv + cipherText
  }

  /** Unpacking splits at the IV length; a shorter package is refused. */
  function Unpack(pack: Bytes): (r: Option<(Bytes, Bytes)>)
    ensures r.None? <==> |pack| < IvLength
    ensures r.Some? ==> |r.value.0| == IvLength && r.value.0 + r.value.1 == pack
  {
    if |pack| < IvLength then None else Some((pack[..IvLength], pack[IvLength..]))
  }

  /** Unpacking recovers exactly what was packed with a 12-byte IV. */
  lemma UnpackPack(iv: Bytes, cipherText: Bytes)
    requires |iv| == IvLength
    ensures Unpack(Pack(iv, cipherText)) == Some((iv, cipherText))
  {
    assert Pack(iv, cipherText)[..IvLength] == iv;
  }

  /** Packing what was unpacked gives the package back. */
  lemma PackUnpack(pack: Bytes)
    requires |pack| >= IvLength
    ensures Pack(Unpack(pack).value.0, Unpack(pack).value.1) == pack
  {
  }

  /** The session key: 32 bytes of HKDF-SHA256 with a null salt. */
  function SessionKey(p: Primitives, shared: Bytes): (r: Bytes)
    ensures Sound(p) ==> |r| == KeyLength
  {
    p.hkdf(shared, None, p.utf8Encode(SessionInfo), KeyLength)
  }

  /** The text encrypted. */
  function PlaintextOf(field: string): (r: string)
    ensures r != ""
    ensures field != "" ==> r == field
  {
    if |field| == 0 then DefaultPlaintext else field
  }

  datatype Report = Report(
    alicePublic: string,
    bobPublic: string,
    sessionKey: string,
    packaged: string,
    decryptedText: string
  )

  /** `runDemo()`. */
  function RunDemo(p: Primitives, aliceScalar: Bytes, bobScalar: Bytes, field: string, iv: Bytes): (r: Result<Report, DemoError>)
    ensures Agree(p, aliceScalar, p.publicKeyOf(bobScalar)).None? ==> r == Failure(AgreementFailed)
    ensures && Agree(p, aliceScalar, p.publicKeyOf(bobScalar)).Some?
            && Agree(p, bobScalar, p.publicKeyOf(aliceScalar)).Some?
            && Agree(p, aliceScalar, p.publicKeyOf(bobScalar)) != Agree(p, bobScalar, p.publicKeyOf(aliceScalar))
            ==> r == Failure(SecretsDiffer)
    ensures r.Success? ==>
              && Agree(p, aliceScalar, p.publicKeyOf(bobScalar)).Some?
              && var key := SessionKey(p, Agree(p, aliceScalar, p.publicKeyOf(bobScalar)).value);
                 && r.value.sessionKey == p.base64Encode(key)
                 && p.seal(key, iv, p.utf8Encode(PlaintextOf(field))).Some?
                 && r.value.packaged == p.base64Encode(Pack(iv, p.seal(key, iv, p.utf8Encode(PlaintextOf(field))).value))
  {
    match Agree(p, aliceScalar, p.publicKeyOf(bobScalar))
    case None => Failure(AgreementFailed)
    case Some(aliceShared) =>
      match Agree(p, bobScalar, p.publicKeyOf(aliceScalar))
      case None => Failure(AgreementFailed)
      case Some(bobShared) =>
        if aliceShared != bobShared then Failure(SecretsDiffer)
        else
          var key := SessionKey(p, aliceShared);
          match p.seal(key, iv, p.utf8Encode(PlaintextOf(field)))
          case None => Failure(EncryptionFailed)
          case Some(cipherText) =>
            var packaged := p.base64Encode(Pack(iv, cipherText));
            match p.base64Decode(packaged)
            case None => Failure(DecodeFailed)
            case Some(received) =>
              match Unpack(received)
              case None => Failure(ShortPackage)
              case Some(parts) =>
                match p.open(key, parts.0, parts.1)
                case None => Failure(DecryptionFailed)
                case Some(plain) =>
                  Success(Report(
                    p.base64Encode(p.publicKeyOf(aliceScalar)),
                    p.base64Encode(p.publicKeyOf(bobScalar)),
                    p.base64Encode(key),
                    packaged,
                    p.utf8Decode(plain)))
  }

  /** With sound primitives the guard never fires: the demo fails only on an all-zero
      agreement, and otherwise Bob reads back what Alice typed (or the default text), from a
      package of IV, ciphertext and tag. */
  lemma DemoRoundTrip(p: Primitives, aliceScalar: Bytes, bobScalar: Bytes, field: string, iv: Bytes)
    requires Sound(p) && |iv| == IvLength
    ensures RunDemo(p, aliceScalar, bobScalar, field, iv).Failure? <==> Agree(p, aliceScalar, p.publicKeyOf(bobScalar)).None?
    ensures RunDemo(p, aliceScalar, bobScalar, field, iv).Success? ==>
              RunDemo(p, aliceScalar, bobScalar, field, iv).value.decryptedText == PlaintextOf(field)
  {
    AgreeSymmetric(p, aliceScalar, bobScalar);
    match Agree(p, aliceScalar, p.publicKeyOf(bobScalar))
    case None =>
    case Some(shared) =>
      var key := SessionKey(p, shared);
      var plain := p.utf8Encode(PlaintextOf(field));
      var cipherText := p.seal(key, iv, plain).value;
      UnpackPack(iv, cipherText);
      assert p.open(key, iv, cipherText) == Some(plain);
  }
}
