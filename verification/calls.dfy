/** The call manager's state flags and the encryption of media frames. WebRTC itself (peer
    connections, tracks, capturers) is outside the model; each setup step that may throw is
    reduced to whether it succeeded. */
module Calls {
  import opened Wrappers
  import opened Crypto

  datatype CallManager = CallManager(
    encryptionKey: Option<Bytes>,
    isCallActive: bool,
    isVideoEnabled: bool,
    isAudioEnabled: bool
  )

  /** The manager as constructed. */
  const Initial: CallManager := CallManager(None, false, true, true)

  /** The HKDF info string for call keys. */
  const CallKeyInfo: string := "Crypta-Call-Audio-Video-Encryption-v1"

  /** `setupEncryption()`: both key pairs are drawn locally, and the key is HKDF of their
      shared secret with a null salt. An all-zero agreement throws and leaves no key. */
  function SetupEncryption(p: Primitives, m: CallManager, privateScalar: Bytes, otherScalar: Bytes): (r: CallManager)
    ensures r.isCallActive == m.isCallActive && r.isVideoEnabled == m.isVideoEnabled && r.isAudioEnabled == m.isAudioEnabled
    ensures Agree(p, privateScalar, p.publicKeyOf(otherScalar)).None? ==> r == m
    ensures Agree(p, privateScalar, p.publicKeyOf(otherScalar)).Some? ==>
              r.encryptionKey == Some(p.hkdf(Agree(p, privateScalar, p.publicKeyOf(otherScalar)).value, None, p.utf8Encode(CallKeyInfo), KeyLength))
    ensures Sound(p) && r.encryptionKey.Some? && r != m ==> |r.encryptionKey.value| == KeyLength
  {
    match Agree(p, privateScalar, p.publicKeyOf(otherScalar))
    case None => m
    case Some(secret) => m.(encryptionKey := Some(p.hkdf(secret, None, p.utf8Encode(CallKeyInfo), KeyLength)))
  }

  /** Either party's scalar gives the same key: the agreement is symmetric. */
  lemma SetupEncryptionSymmetric(p: Primitives, m: CallManager, a: Bytes, b: Bytes)
    requires Sound(p)
    ensures SetupEncryption(p, m, a, b) == SetupEncryption(p, m, b, a)
  {
    AgreeSymmetric(p, a, b);
  }

  /** `encryptAudioData`: the frame is passed through without a key or when encryption
      throws. */
  function EncryptAudioData(p: Primitives, m: CallManager, data: Bytes, iv: Bytes): (r: Bytes)
    ensures m.encryptionKey.None? ==> r == data
    ensures m.encryptionKey.Some? && p.seal(m.encryptionKey.value, iv, data).None? ==> r == data
    ensures m.encryptionKey.Some? && p.seal(m.encryptionKey.value, iv, data).Some? ==>
              r == iv + p.seal(m.encryptionKey.value, iv, data).value
  {
    match m.encryptionKey
    case None => data
    case Some(key) => SealFramed(p, key, iv, data).GetOr(data)
  }

  /** `decryptAudioData`: the frame is passed through without a key, when it is shorter than
      an IV, or when decryption fails. */
  function DecryptAudioData(p: Primitives, m: CallManager, data: Bytes): (r: Bytes)
    ensures m.encryptionKey.None? || |data| < IvLength ==> r == data
    ensures m.encryptionKey.Some? && |data| >= IvLength ==>
              r == p.open(m.encryptionKey.value, data[..IvLength], data[IvLength..]).GetOr(data)
  {
    match m.encryptionKey
    case None => data
    case Some(key) => OpenFramed(p, key, data).GetOr(data)
  }

  /** With a 32-byte key and a 12-byte IV a frame is encrypted into IV, ciphertext and tag,
      and decrypting it restores the frame. */
  lemma DecryptEncryptedAudio(p: Primitives, m: CallManager, data: Bytes, iv: Bytes)
    requires Sound(p) && |iv| == IvLength
    requires m.encryptionKey.Some? ==> |m.encryptionKey.value| == KeyLength
    ensures m.encryptionKey.Some? ==> |EncryptAudioData(p, m, data, iv)| == IvLength + |data| + TagLength
    ensures DecryptAudioData(p, m, EncryptAudioData(p, m, data, iv)) == data
  {
    if m.encryptionKey.Some? {
      OpenSealFramed(p, m.encryptionKey.value, iv, data);
    }
  }

  /** `toggleMicrophone()`: the returned value is the new setting. */
  function ToggleMicrophone(m: CallManager): (r: (CallManager, bool))
    ensures r.1 == !m.isAudioEnabled && r.0.isAudioEnabled == r.1
    ensures r.0.(isAudioEnabled := m.isAudioEnabled) == m
  {
    var n := m.(isAudioEnabled := !m.isAudioEnabled);
    (n, n.isAudioEnabled)
  }

  /** `toggleCamera()`: the returned value is the new setting. */
  function ToggleCamera(m: CallManager): (r: (CallManager, bool))
    ensures r.1 == !m.isVideoEnabled && r.0.isVideoEnabled == r.1
    ensures r.0.(isVideoEnabled := m.isVideoEnabled) == m
  {
    var n := m.(isVideoEnabled := !m.isVideoEnabled);
    (n, n.isVideoEnabled)
  }

  /** Toggling twice restores the manager. */
  lemma ToggleTwice(m: CallManager)
    ensures ToggleMicrophone(ToggleMicrophone(m).0).0 == m
    ensures ToggleCamera(ToggleCamera(m).0).0 == m
  {
  }

  datatype CallKind = Voice | Video

  /** `startVoiceCall` / `startVideoCall`: nothing changes without every permission, or when a
      setup step throws. */
  function StartCall(m: CallManager, kind: CallKind, permitted: bool, setupSucceeds: bool): (r: CallManager)
    ensures !permitted || !setupSucceeds ==> r == m
    ensures permitted && setupSucceeds ==>
              r.isCallActive && (r.isVideoEnabled <==> kind == Video)
    ensures r.isAudioEnabled == m.isAudioEnabled && r.encryptionKey == m.encryptionKey
  {
    if permitted && setupSucceeds then m.(isCallActive := true, isVideoEnabled := kind == Video) else m
  }

  /** `endCall()`: every flag is cleared; the key is kept. The flags are cleared only after
      the capturer, tracks and peer connection are released; `releaseOk` is false when one of
      those calls throws, which leaves the flags as they were. */
  function EndCall(m: CallManager, releaseOk: bool): (r: CallManager)
    ensures releaseOk ==> !r.isCallActive && !r.isVideoEnabled && !r.isAudioEnabled
    ensures !releaseOk ==> r == m
    ensures r.encryptionKey == m.encryptionKey
  {
    if releaseOk then m.(isCallActive := false, isVideoEnabled := false, isAudioEnabled := false) else m
  }

  datatype CallState = CallState(isActive: bool, isVideoEnabled: bool, isAudioEnabled: bool, isEncrypted: bool)

  /** `getCallState()`. */
  function GetCallState(m: CallManager): (r: CallState)
    ensures r.isActive == m.isCallActive && r.isVideoEnabled == m.isVideoEnabled && r.isAudioEnabled == m.isAudioEnabled
    ensures r.isEncrypted <==> m.encryptionKey.Some?
  {
    CallState(m.isCallActive, m.isVideoEnabled, m.isAudioEnabled, m.encryptionKey.Some?)
  }

  /** A call started and then ended reports an inactive call with media off, and stays
      encrypted exactly when it was. */
  lemma StartThenEnd(m: CallManager, kind: CallKind, permitted: bool, setupSucceeds: bool)
    ensures GetCallState(EndCall(StartCall(m, kind, permitted, setupSucceeds), true))
            == CallState(false, false, false, m.encryptionKey.Some?)
  {
  }

  /** Once `initialize()` has derived a key, frames of any started call round-trip. */
  lemma InitializedCallRoundTrip(p: Primitives, a: Bytes, b: Bytes, kind: CallKind, data: Bytes, iv: Bytes)
    requires Sound(p) && |iv| == IvLength
    requires Agree(p, a, p.publicKeyOf(b)).Some?
    ensures var m := StartCall(SetupEncryption(p, Initial, a, b), kind, true, true);
            && GetCallState(m).isEncrypted && GetCallState(m).isActive
            && DecryptAudioData(p, m, EncryptAudioData(p, m, data, iv)) == data
  {
    var m := StartCall(SetupEncryption(p, Initial, a, b), kind, true, true);
    DecryptEncryptedAudio(p, m, data, iv);
  }
}
