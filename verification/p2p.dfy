/** The peer-to-peer messaging manager: the X25519 handshake relayed by the signalling server,
    the per-conversation AES-GCM key, direct connections, and the per-sender message queues.

    Every handler is one sequential transition of the `Manager` state. Socket, server-send and
    port-probe outcomes are parameters; the messages a transition hands to the server and the
    connection events it emits are returned with the new state. */
module P2P {
  import opened Wrappers
  import opened Text
  import opened Decimal
  import opened Crypto
  import opened Protocol

  const PortRangeStart: int := 9000
  const PortRangeEnd: int := 9100
  const ConnectionTimeout: int := 30000
  const HeartbeatInterval: int := 15000
  /** Prefix of the HKDF info string that binds a key to a pair of users. */
  const InfoPrefix: string := "CryptaP2PConversation-"
  /** What the reader shows for content it cannot decrypt ("encrypted message"). */
  const Undecryptable: string := "[رسالة مشفرة]"

  /** A handshake this user started and has not completed. */
  datatype PendingConnection = PendingConnection(
    targetUserId: string,
    myPrivateKey: Bytes,
    myPublicKey: Bytes,
    timestamp: int,
    isInitiator: bool
  )

  /** An open direct connection (the socket itself is not modelled). */
  datatype P2PConnection = P2PConnection(targetUserId: string, isInitiator: bool, lastActivity: int)

  /** A chat message as it travels over a direct connection. */
  datatype P2PMessage = P2PMessage(
    id: string,
    fromUserId: string,
    toUserId: string,
    content: string,
    messageType: string,
    timestamp: int,
    isEncrypted: bool
  )

  datatype ConnectionEvent =
    | IncomingRequest(userId: string)
    | ConnectionEstablished(userId: string)
    | ConnectionRejected(userId: string)
    | ConnectionFailed(userId: string)
    | ConnectionLost(userId: string)

  /** The manager's state: the concurrent maps of the source, keyed by the other user's id. */
  datatype Manager = Manager(
    currentUserId: string,
    connectedToServer: bool,
    pending: map<string, PendingConnection>,
    keys: map<string, Bytes>,
    connections: map<string, P2PConnection>,
    queues: map<string, seq<P2PMessage>>
  )

  /** The result of a handler: the new state, the messages handed to the server, the events. */
  datatype Step = Step(manager: Manager, sent: seq<ServerMessage>, events: seq<ConnectionEvent>)

  /** A handler that returns early leaves everything as it was. */
  function Unchanged(m: Manager): Step {
    Step(m, [], [])
  }

  /** The state after `initialize(userId)`: no conversations yet. */
  function Initial(userId: string, connectedToServer: bool): (m: Manager)
    ensures m.currentUserId == userId && m.pending == map[] && m.keys == map[]
    ensures m.connections == map[] && m.queues == map[]
  {
    Manager(userId, connectedToServer, map[], map[], map[], map[])
  }

  // ---------------------------------------------------------------- keys

  /** `listOf(a, b).sorted()`. */
  function SortedPair(a: string, b: string): (r: (string, string))
    ensures LessOrEqual(r.0, r.1)
    ensures r == (a, b) || r == (b, a)
  {
    if LessOrEqual(a, b) then (a, b)
    else
      LessOrEqualTotal(a, b);
      (b, a)
  }

  /** Sorting a pair does not depend on the order it was given in. */
  lemma SortedPairSymmetric(a: string, b: string)
    ensures SortedPair(a, b) == SortedPair(b, a)
  {
    if LessOrEqual(a, b) && LessOrEqual(b, a) {
      LessOrEqualAntisymmetric(a, b);
    }
  }

  /** The HKDF info text naming the two users in sorted order. */
  function ConversationInfo(a: string, b: string): (info: string)
    ensures StartsWith(info, InfoPrefix)
  {
    var s := SortedPair(a, b);
    InfoPrefix + s.0 + "-" + s.1
  }

  /** `deriveConversationKey`: HKDF-SHA256 over the shared secret, no salt, 32 bytes. */
  function DeriveConversationKey(p: Primitives, secret: Bytes, a: string, b: string): (key: Bytes)
    ensures Sound(p) ==> |key| == KeyLength
  {
    p.hkdf(secret, None, p.utf8Encode(ConversationInfo(a, b)), KeyLength)
  }

  /** Both ends derive the same key from the same secret, whoever calls themselves "a". */
  lemma ConversationKeySymmetric(p: Primitives, secret: Bytes, a: string, b: string)
    ensures DeriveConversationKey(p, secret, a, b) == DeriveConversationKey(p, secret, b, a)
  {
    SortedPairSymmetric(a, b);
  }

  /** `encryptMessage`: Base64 of IV and ciphertext, or the plaintext itself when encryption
      throws. */
  function EncryptMessage(p: Primitives, text: string, key: Bytes, iv: Bytes): (r: string)
    ensures EncryptText(p, key, iv, text).None? ==> r == text
  {
    EncryptText(p, key, iv, text).GetOr(text)
  }

  /** `decryptMessage`: the plaintext, or the placeholder when anything fails. */
  function DecryptMessage(p: Primitives, text: string, key: Bytes): (r: string)
    ensures p.base64Decode(text).None? ==> r == Undecryptable
    ensures p.base64Decode(text).Some? && |p.base64Decode(text).value| < IvLength ==> r == Undecryptable
  {
    DecryptText(p, key, text).GetOr(Undecryptable)
  }

  /** Under a 32-byte key, decryption undoes encryption. */
  lemma MessageRoundTrip(p: Primitives, text: string, key: Bytes, iv: Bytes)
    requires Sound(p) && |key| == KeyLength && |iv| == IvLength
    ensures DecryptMessage(p, EncryptMessage(p, text, key, iv), key) == text
  {
    DecryptEncryptedText(p, key, iv, text);
  }

  /** Every stored conversation key is 32 bytes long. */
  predicate KeysWellFormed(m: Manager) {
    forall u | u in m.keys :: |m.keys[u]| == KeyLength
  }

  // ---------------------------------------------------------------- ports

  /** The first port from `from` up to the end of the range that can be bound; `free` is the
      set of ports for which `ServerSocket(port)` succeeds. */
  function FirstFreePort(free: set<int>, from: int): (r: Option<int>)
    requires PortRangeStart <= from <= PortRangeEnd + 1
    ensures r.Some? ==> from <= r.value <= PortRangeEnd && r.value in free
    ensures r.Some? ==> forall q | from <= q < r.value :: q !in free
    ensures r.None? ==> forall q | from <= q <= PortRangeEnd :: q !in free
    decreases PortRangeEnd + 1 - from
  {
    if from > PortRangeEnd then None
    else if from in free then Some(from)
    else FirstFreePort(free, from + 1)
  }

  /** `findAvailablePort`: the lowest bindable port in 9000..9100; `None` is the thrown
      "no ports available" exception. */
  function FindAvailablePort(free: set<int>): (r: Option<int>)
    ensures r.Some? ==> PortRangeStart <= r.value <= PortRangeEnd && r.value in free
    ensures r.Some? ==> forall q | PortRangeStart <= q < r.value :: q !in free
    ensures r.None? <==> forall q | PortRangeStart <= q <= PortRangeEnd :: q !in free
  {
    FirstFreePort(free, PortRangeStart)
  }

  // ---------------------------------------------------------------- handshake

  /** The CONNECTION_REQUEST carrying the initiator's public key. */
  function ConnectionRequest(p: Primitives, m: Manager, target: string, kp: KeyPair, now: int): ServerMessage {
    ServerMessage(CONNECTION_REQUEST, Some(m.currentUserId), Some(target),
      Some(map["publicKey" := Str(p.base64Encode(kp.publicKey)), "timestamp" := Str(IntToString(now))]), now)
  }

  /** `startConversation`: with a fresh key pair `kp`, send a CONNECTION_REQUEST and remember
      the handshake as pending. `sendOk` is false when the send throws. */
  function StartConversation(p: Primitives, m: Manager, target: string, kp: KeyPair, now: int, sendOk: bool)
    : (r: (bool, Step))
    ensures r.0 <==> m.connectedToServer && sendOk
    ensures !r.0 ==> r.1 == Unchanged(m)
    ensures r.0 ==> && r.1.sent == [ConnectionRequest(p, m, target, kp, now)] && r.1.events == []
                    && target in r.1.manager.pending
                    && r.1.manager.pending[target].isInitiator
                    && r.1.manager.pending[target].myPrivateKey == kp.privateKey
                    && r.1.manager.pending[target].myPublicKey == kp.publicKey
                    && (forall u | u != target :: (u in r.1.manager.pending <==> u in m.pending))
                    && r.1.manager == m.(pending := r.1.manager.pending)
  {
    if !m.connectedToServer || !sendOk then (false, Unchanged(m))
    else
      var pc := PendingConnection(target, kp.privateKey, kp.publicKey, now, true);
      (true, Step(m.(pending := m.pending[target := pc]), [ConnectionRequest(p, m, target, kp, now)], []))
  }

  /** The peer key a handshake message carries, decoded; `None` when it is missing, not a
      string, not Base64, or not 32 bytes. */
  function PeerPublicKey(p: Primitives, msg: ServerMessage): (r: Option<Bytes>)
    ensures r.Some? ==> |r.value| == KeyLength
    ensures DataString(msg, "publicKey").None? ==> r.None?
  {
    match DataString(msg, "publicKey")
    case None => None
    case Some(text) => DecodePublicKey(p, text)
  }

  /** The CONNECTION_RESPONSE accepting a request. */
  function ConnectionResponse(p: Primitives, m: Manager, target: string, kp: KeyPair, port: int, now: int): ServerMessage {
    ServerMessage(CONNECTION_RESPONSE, Some(m.currentUserId), Some(target),
      Some(map["accepted" := Str("true"), "publicKey" := Str(p.base64Encode(kp.publicKey)),
               "p2pPort" := Str(IntToString(port))]), now)
  }

  /** `handleConnectionRequest`: answer a request with a fresh key pair `kp`. The conversation
      key is stored as soon as the agreement succeeds, before a port is looked for and before
      the answer is sent; a missing port or a failed send leaves that key in place. */
  function HandleConnectionRequest(p: Primitives, m: Manager, msg: ServerMessage, kp: KeyPair,
                                   free: set<int>, sendOk: bool, now: int): (r: Step)
    ensures msg.fromUserId.None? || PeerPublicKey(p, msg).None? ==> r == Unchanged(m)
    ensures r.manager.pending == m.pending && r.manager.connections == m.connections
    ensures r.manager.queues == m.queues && r.manager.currentUserId == m.currentUserId
    ensures forall u | u in m.keys && (msg.fromUserId.None? || u != msg.fromUserId.value) ::
              u in r.manager.keys && r.manager.keys[u] == m.keys[u]
    ensures r.manager.keys != m.keys ==>
              && msg.fromUserId.Some? && PeerPublicKey(p, msg).Some?
              && Agree(p, kp.privateKey, PeerPublicKey(p, msg).value).Some?
              && r.manager.keys == m.keys[msg.fromUserId.value :=
                   DeriveConversationKey(p, Agree(p, kp.privateKey, PeerPublicKey(p, msg).value).value,
                                         m.currentUserId, msg.fromUserId.value)]
    ensures r.events != [] <==> r.sent != []
    ensures r.sent != [] ==> FindAvailablePort(free).Some? && sendOk
  {
    match msg.fromUserId
    case None => Unchanged(m)
    case Some(target) =>
      match PeerPublicKey(p, msg)
      case None => Unchanged(m)
      case Some(peerKey) =>
        match Agree(p, kp.privateKey, peerKey)
        case None => Unchanged(m)
        case Some(secret) =>
          var m1 := m.(keys := m.keys[target := DeriveConversationKey(p, secret, m.currentUserId, target)]);
          match FindAvailablePort(free)
          case None => Step(m1, [], [])
          case Some(port) =>
            if !sendOk then Step(m1, [], [])
            else Step(m1, [ConnectionResponse(p, m, target, kp, port, now)], [IncomingRequest(target)])
  }

  /** The PEER_INFO request that follows an accepted handshake. */
  function PeerInfoRequest(m: Manager, target: string, now: int): ServerMessage {
    ServerMessage(PEER_INFO, Some(m.currentUserId), Some(target),
      Some(map["requestType" := Str("connection_info")]), now)
  }

  /** `handleConnectionResponse`. A refusal forgets the pending handshake. An acceptance for a
      pending handshake with a usable key and port stores the conversation key; the pending
      entry is removed only once the PEER_INFO request has been sent. */
  function HandleConnectionResponse(p: Primitives, m: Manager, msg: ServerMessage, sendOk: bool, now: int): (r: Step)
    ensures msg.fromUserId.None? ==> r == Unchanged(m)
    ensures msg.fromUserId.Some? && DataString(msg, "accepted") != Some("true") ==>
              r == Step(m.(pending := m.pending - {msg.fromUserId.value}), [],
                        [ConnectionRejected(msg.fromUserId.value)])
    ensures (msg.fromUserId.Some? && DataString(msg, "accepted") == Some("true")
             && msg.fromUserId.value !in m.pending) ==> r == Unchanged(m)
    ensures (msg.fromUserId.Some? && DataString(msg, "accepted") == Some("true")
             && (DataString(msg, "p2pPort").None? || ParseInt(DataString(msg, "p2pPort").value).None?))
            ==> r == Unchanged(m)
    ensures r.manager.connections == m.connections && r.manager.queues == m.queues
    ensures r.manager.currentUserId == m.currentUserId
    ensures r.manager.keys != m.keys ==>
              && msg.fromUserId.Some? && msg.fromUserId.value in m.pending
              && PeerPublicKey(p, msg).Some?
              && Agree(p, m.pending[msg.fromUserId.value].myPrivateKey, PeerPublicKey(p, msg).value).Some?
              && r.manager.keys == m.keys[msg.fromUserId.value :=
                   DeriveConversationKey(p,
                     Agree(p, m.pending[msg.fromUserId.value].myPrivateKey, PeerPublicKey(p, msg).value).value,
                     m.currentUserId, msg.fromUserId.value)]
    ensures r.sent != [] ==> sendOk && r.manager.pending == m.pending - {msg.fromUserId.value}
  {
    match msg.fromUserId
    case None => Unchanged(m)
    case Some(target) =>
      if DataString(msg, "accepted") != Some("true") then
        Step(m.(pending := m.pending - {target}), [], [ConnectionRejected(target)])
      else if target !in m.pending then Unchanged(m)
      else
        var pc := m.pending[target];
        match DataString(msg, "publicKey")
        case None => Unchanged(m)
        case Some(_) =>
          match DataString(msg, "p2pPort")
          case None => Unchanged(m)
          case Some(portText) =>
            if ParseInt(portText).None? then Unchanged(m)
            else
              match PeerPublicKey(p, msg)
              case None => Unchanged(m)
              case Some(peerKey) =>
                match Agree(p, pc.myPrivateKey, peerKey)
                case None => Unchanged(m)
                case Some(secret) =>
                  var m1 := m.(keys := m.keys[target := DeriveConversationKey(p, secret, m.currentUserId, target)]);
                  if !sendOk then Step(m1, [], [])
                  else Step(m1.(pending := m.pending - {target}), [PeerInfoRequest(m, target, now)], [])
  }

  /** `establishP2PConnection` after dialling the peer: `dialOk` is the socket's outcome. */
  function EstablishConnection(m: Manager, target: string, dialOk: bool, now: int): (r: Step)
    ensures r.sent == []
    ensures dialOk ==> r.manager.connections == m.connections[target := P2PConnection(target, true, now)]
                       && r.events == [ConnectionEstablished(target)]
    ensures !dialOk ==> r.manager == m && r.events == [ConnectionFailed(target)]
    ensures r.manager.keys == m.keys && r.manager.queues == m.queues && r.manager.pending == m.pending
  {
    if dialOk then
      Step(m.(connections := m.connections[target := P2PConnection(target, true, now)]), [],
           [ConnectionEstablished(target)])
    else Step(m, [], [ConnectionFailed(target)])
  }

  /** `handlePeerInfo`: dial the peer once its address and port are known. */
  function HandlePeerInfo(m: Manager, msg: ServerMessage, dialOk: bool, now: int): (r: Step)
    ensures msg.fromUserId.None? || DataString(msg, "ip").None? || DataString(msg, "port").None?
            ==> r == Unchanged(m)
    ensures DataString(msg, "port").Some? && ParseInt(DataString(msg, "port").value).None? ==> r == Unchanged(m)
    ensures r.manager.keys == m.keys && r.manager.queues == m.queues && r.manager.pending == m.pending
    ensures r.manager.connections != m.connections ==>
              msg.fromUserId.Some? && dialOk && r.manager.connections.Keys == m.connections.Keys + {msg.fromUserId.value}
  {
    match msg.fromUserId
    case None => Unchanged(m)
    case Some(target) =>
      if DataString(msg, "ip").None? then Unchanged(m)
      else
        match DataString(msg, "port")
        case None => Unchanged(m)
        case Some(portText) =>
          if ParseInt(portText).None? then Unchanged(m)
          else EstablishConnection(m, target, dialOk, now)
  }

  /** `handleServerMessage`: dispatch on the message type; other types change nothing. */
  function HandleServerMessage(p: Primitives, m: Manager, msg: ServerMessage, kp: KeyPair,
                               free: set<int>, sendOk: bool, dialOk: bool, now: int): (r: Step)
    ensures msg.msgType !in {CONNECTION_REQUEST, CONNECTION_RESPONSE, PEER_INFO} ==> r == Unchanged(m)
    ensures msg.msgType == CONNECTION_REQUEST ==> r == HandleConnectionRequest(p, m, msg, kp, free, sendOk, now)
    ensures msg.msgType == CONNECTION_RESPONSE ==> r == HandleConnectionResponse(p, m, msg, sendOk, now)
    ensures msg.msgType == PEER_INFO ==> r == HandlePeerInfo(m, msg, dialOk, now)
  {
    match msg.msgType
    case CONNECTION_REQUEST => HandleConnectionRequest(p, m, msg, kp, free, sendOk, now)
    case CONNECTION_RESPONSE => HandleConnectionResponse(p, m, msg, sendOk, now)
    case PEER_INFO => HandlePeerInfo(m, msg, dialOk, now)
    case _ => Unchanged(m)
  }

  /** `handleIncomingP2PConnection`: the first line must be a handshake naming the peer
      (`None` when it does not decode). */
  function AcceptConnection(m: Manager, handshakeFrom: Option<string>, now: int): (r: Step)
    ensures handshakeFrom.None? ==> r == Unchanged(m)
    ensures handshakeFrom.Some? ==>
              && r.manager.connections == m.connections[handshakeFrom.value := P2PConnection(handshakeFrom.value, false, now)]
              && r.events == [ConnectionEstablished(handshakeFrom.value)]
    ensures r.manager.keys == m.keys && r.manager.queues == m.queues && r.manager.pending == m.pending
  {
    match handshakeFrom
    case None => Unchanged(m)
    case Some(peer) =>
      Step(m.(connections := m.connections[peer := P2PConnection(peer, false, now)]), [],
           [ConnectionEstablished(peer)])
  }

  // ---------------------------------------------------------------- messages

  /** `sendMessage`: encrypt under the conversation key and write one line to the peer.
      Returns whether it succeeded, the new state and the message written. */
  function SendMessage(p: Primitives, m: Manager, target: string, content: string, messageType: string,
                       iv: Bytes, id: string, now: int, writeOk: bool): (r: (bool, Manager, Option<P2PMessage>))
    ensures r.0 <==> target in m.connections && target in m.keys && writeOk
    ensures r.0 <==> r.2.Some?
    ensures !r.0 ==> r.1 == m
    ensures r.0 ==> && r.2.value.fromUserId == m.currentUserId && r.2.value.toUserId == target
                    && r.2.value.isEncrypted && r.2.value.timestamp == now
                    && r.2.value.content == EncryptMessage(p, content, m.keys[target], iv)
                    && r.1 == m.(connections := m.connections[target := m.connections[target].(lastActivity := now)])
  {
    if target !in m.connections || target !in m.keys || !writeOk then (false, m, None)
    else
      var msg := P2PMessage(id, m.currentUserId, target, EncryptMessage(p, content, m.keys[target], iv),
                            messageType, now, true);
      (true, m.(connections := m.connections[target := m.connections[target].(lastActivity := now)]), Some(msg))
  }

  /** One line read from a direct connection: a message, or text that does not decode. */
  datatype Frame = Line(msg: P2PMessage) | Garbage

  /** What the reader hands on: decrypted when a key for the sender exists and the message
      says it is encrypted, otherwise as received. */
  function Delivered(p: Primitives, m: Manager, msg: P2PMessage): (d: P2PMessage)
    ensures d.fromUserId == msg.fromUserId && d.id == msg.id && d.timestamp == msg.timestamp
    ensures msg.fromUserId in m.keys && msg.isEncrypted ==>
              !d.isEncrypted && d.content == DecryptMessage(p, msg.content, m.keys[msg.fromUserId])
    ensures !(msg.fromUserId in m.keys && msg.isEncrypted) ==> d == msg
  {
    if msg.fromUserId in m.keys && msg.isEncrypted then
      msg.(content := DecryptMessage(p, msg.content, m.keys[msg.fromUserId]), isEncrypted := false)
    else msg
  }

  /** `getMessages`. */
  function GetMessages(m: Manager, userId: string): (r: seq<P2PMessage>)
    ensures userId !in m.queues ==> r == []
  {
    if userId in m.queues then m.queues[userId] else []
  }

  /** One iteration of the read loop followed by the message processor: the delivered message
      is appended to its sender's queue and the connection's activity time is updated.
      Undecodable lines are skipped. */
  function ReceiveFrame(p: Primitives, m: Manager, peer: string, frame: Frame, now: int): (r: Manager)
    ensures r.keys == m.keys && r.pending == m.pending && r.currentUserId == m.currentUserId
    ensures r.connections.Keys == m.connections.Keys
    ensures frame.Garbage? ==> r == m
    ensures frame.Line? ==>
              && GetMessages(r, frame.msg.fromUserId) == GetMessages(m, frame.msg.fromUserId) + [Delivered(p, m, frame.msg)]
              && forall u | u != frame.msg.fromUserId :: GetMessages(r, u) == GetMessages(m, u)
  {
    match frame
    case Garbage => m
    case Line(msg) =>
      var d := Delivered(p, m, msg);
      Touch(m, peer, now).(queues := m.queues[d.fromUserId := GetMessages(m, d.fromUserId) + [d]])
  }

  /** The reader's `connection.lastActivity = now` after a line it handled. */
  function Touch(m: Manager, peer: string, now: int): (r: Manager)
    ensures r == m.(connections := r.connections) && r.connections.Keys == m.connections.Keys
    ensures peer in m.connections ==> r.connections == m.connections[peer := m.connections[peer].(lastActivity := now)]
  {
    if peer in m.connections then m.(connections := m.connections[peer := m.connections[peer].(lastActivity := now)])
    else m
  }

  /** The read loop over a sequence of lines, all read at time `now`. */
  function ReceiveAll(p: Primitives, m: Manager, peer: string, frames: seq<Frame>, now: int): Manager
    decreases |frames|
  {
    if |frames| == 0 then m
    else ReceiveAll(p, ReceiveFrame(p, m, peer, frames[0], now), peer, frames[1..], now)
  }

  /** The messages a sequence of lines delivers to the queue of `userId`, in order. */
  function DeliveredFrom(p: Primitives, m: Manager, frames: seq<Frame>, userId: string): seq<P2PMessage>
    decreases |frames|
  {
    if |frames| == 0 then []
    else
      var rest := DeliveredFrom(p, m, frames[1..], userId);
      if frames[0].Line? && frames[0].msg.fromUserId == userId then [Delivered(p, m, frames[0].msg)] + rest
      else rest
  }

  /** The read loop keeps the keys, so every line is decrypted with the keys it started with,
      and each sender's queue grows by exactly that sender's messages, in arrival order. */
  lemma {:induction false} ReceiveAllQueues(p: Primitives, m: Manager, peer: string, frames: seq<Frame>, now: int, userId: string)
    ensures ReceiveAll(p, m, peer, frames, now).keys == m.keys
    ensures GetMessages(ReceiveAll(p, m, peer, frames, now), userId)
            == GetMessages(m, userId) + DeliveredFrom(p, m, frames, userId)
    decreases |frames|
  {
    if |frames| > 0 {
      var m1 := ReceiveFrame(p, m, peer, frames[0], now);
      ReceiveAllQueues(p, m1, peer, frames[1..], now, userId);
      DeliveredFromSameKeys(p, m, m1, frames[1..], userId);
    }
  }

  lemma {:induction false} DeliveredFromSameKeys(p: Primitives, m: Manager, m1: Manager, frames: seq<Frame>, userId: string)
    requires m.keys == m1.keys
    ensures DeliveredFrom(p, m, frames, userId) == DeliveredFrom(p, m1, frames, userId)
    decreases |frames|
  {
    if |frames| > 0 {
      DeliveredFromSameKeys(p, m, m1, frames[1..], userId);
    }
  }

  /** The `finally` of the read loop: the connection is dropped and reported lost. */
  function CloseConnection(m: Manager, peer: string): (r: Step)
    ensures peer !in r.manager.connections
    ensures r.manager == m.(connections := m.connections - {peer})
    ensures r.events == [ConnectionLost(peer)] && r.sent == []
  {
    Step(m.(connections := m.connections - {peer}), [], [ConnectionLost(peer)])
  }

  /** The whole life of a read loop: every line until end of stream, then the close. */
  function RunReader(p: Primitives, m: Manager, peer: string, frames: seq<Frame>, now: int): (r: Step)
    ensures peer !in r.manager.connections && r.manager.keys == m.keys && r.manager.pending == m.pending
    ensures r.events == [ConnectionLost(peer)] && r.sent == []
    ensures forall u :: GetMessages(r.manager, u) == GetMessages(m, u) + DeliveredFrom(p, m, frames, u)
  {
    forall u ensures GetMessages(ReceiveAll(p, m, peer, frames, now), u) == GetMessages(m, u) + DeliveredFrom(p, m, frames, u) {
      ReceiveAllQueues(p, m, peer, frames, now, u);
    }
    ReceiveAllQueues(p, m, peer, frames, now, peer);
    ReceiveAllKeeps(p, m, peer, frames, now);
    CloseConnection(ReceiveAll(p, m, peer, frames, now), peer)
  }

  lemma {:induction false} ReceiveAllKeeps(p: Primitives, m: Manager, peer: string, frames: seq<Frame>, now: int)
    ensures ReceiveAll(p, m, peer, frames, now).pending == m.pending
    decreases |frames|
  {
    if |frames| > 0 {
      ReceiveAllKeeps(p, ReceiveFrame(p, m, peer, frames[0], now), peer, frames[1..], now);
    }
  }

  /** `disconnectFromUser`: forget the connection, key and queue; a pending handshake with the
      same user is kept. The connection is removed before its socket is closed; `closeOk` is
      false when that close throws, which skips forgetting the key and the queue. */
  function DisconnectFromUser(m: Manager, target: string, closeOk: bool): (r: Manager)
    ensures !IsConnectedToUser(r, target) && r.pending == m.pending
    ensures closeOk || !IsConnectedToUser(m, target) ==> target !in r.keys && GetMessages(r, target) == []
    ensures !closeOk && IsConnectedToUser(m, target) ==> r.keys == m.keys && r.queues == m.queues
    ensures forall u | u != target :: IsConnectedToUser(r, u) == IsConnectedToUser(m, u)
    ensures forall u | u != target :: GetMessages(r, u) == GetMessages(m, u)
    ensures forall u | u != target && u in m.keys :: u in r.keys && r.keys[u] == m.keys[u]
  {
    var m1 := m.(connections := m.connections - {target});
    if target in m.connections && !closeOk then m1
    else m1.(keys := m.keys - {target}, queues := m.queues - {target})
  }

  /** `isConnectedToUser`. */
  predicate IsConnectedToUser(m: Manager, userId: string) {
    userId in m.connections
  }

  // ---------------------------------------------------------------- end to end

  /** The signalling handshake agrees on a key. Alice starts a conversation with Bob; Bob
      answers the request the server forwards with his own key pair; Alice handles the answer.
      Then both store the same 32-byte conversation key, under each other's id, Bob reports
      the incoming request, and Alice asks for Bob's address and forgets the pending
      handshake. */
  lemma HandshakeAgreesOnKey(p: Primitives, alice: Manager, bob: Manager, kpA: KeyPair, kpB: KeyPair,
                             free: set<int>, t0: int, t1: int, t2: int)
    requires Sound(p)
    requires alice.connectedToServer
    requires kpA.publicKey == p.publicKeyOf(kpA.privateKey) && kpB.publicKey == p.publicKeyOf(kpB.privateKey)
    requires !AllZero(p.x25519(kpB.privateKey, kpA.publicKey))
    requires FindAvailablePort(free).Some?
    ensures var a := alice.currentUserId;
            var b := bob.currentUserId;
            var s1 := StartConversation(p, alice, b, kpA, t0, true).1;
            var req := ConnectionRequest(p, alice, b, kpA, t0);
            var resp := ConnectionResponse(p, bob, a, kpB, FindAvailablePort(free).value, t1);
            var s2 := HandleConnectionRequest(p, bob, req, kpB, free, true, t1);
            var s3 := HandleConnectionResponse(p, s1.manager, resp, true, t2);
            && StartConversation(p, alice, b, kpA, t0, true).0 && s1.sent == [req]
            && s2.sent == [resp] && s2.events == [IncomingRequest(a)]
            && b in s3.manager.keys && a in s2.manager.keys
            && s3.manager.keys[b] == s2.manager.keys[a] && |s3.manager.keys[b]| == KeyLength
            && b !in s3.manager.pending && s3.sent == [PeerInfoRequest(s1.manager, b, t2)]
  {
    var a := alice.currentUserId;
    var b := bob.currentUserId;
    var s1 := StartConversation(p, alice, b, kpA, t0, true).1;
    var req := ConnectionRequest(p, alice, b, kpA, t0);
    var secret := p.x25519(kpB.privateKey, kpA.publicKey);
    RequestCarriesKey(p, alice, b, kpA, t0);
    RequestAnswered(p, bob, req, kpB, kpA.publicKey, free, t1);
    var port := FindAvailablePort(free).value;
    var resp := ConnectionResponse(p, bob, a, kpB, port, t1);
    ResponseCarriesKey(p, bob, a, kpB, port, t1);
    AgreeSymmetric(p, kpA.privateKey, kpB.privateKey);
    ResponseCompletes(p, s1.manager, resp, kpB.publicKey, true, t2);
    ConversationKeySymmetric(p, secret, a, b);
  }

  /** The request carries the initiator's public key, which decodes back. */
  lemma RequestCarriesKey(p: Primitives, m: Manager, target: string, kp: KeyPair, now: int)
    requires Sound(p) && |kp.publicKey| == KeyLength
    ensures ConnectionRequest(p, m, target, kp, now).fromUserId == Some(m.currentUserId)
    ensures PeerPublicKey(p, ConnectionRequest(p, m, target, kp, now)) == Some(kp.publicKey)
  {
    var req := ConnectionRequest(p, m, target, kp, now);
    assert DataString(req, "publicKey") == Some(p.base64Encode(kp.publicKey));
    DecodeEncodedPublicKey(p, kp.publicKey);
  }

  /** The response carries the responder's public key and a port that parses back. */
  lemma ResponseCarriesKey(p: Primitives, m: Manager, target: string, kp: KeyPair, port: int, now: int)
    requires Sound(p) && |kp.publicKey| == KeyLength && PortRangeStart <= port <= PortRangeEnd
    ensures var resp := ConnectionResponse(p, m, target, kp, port, now);
            && resp.fromUserId == Some(m.currentUserId)
            && DataString(resp, "accepted") == Some("true")
            && DataString(resp, "p2pPort").Some? && ParseInt(DataString(resp, "p2pPort").value) == Some(port)
            && PeerPublicKey(p, resp) == Some(kp.publicKey)
  {
    var resp := ConnectionResponse(p, m, target, kp, port, now);
    assert DataString(resp, "publicKey") == Some(p.base64Encode(kp.publicKey));
    assert DataString(resp, "p2pPort") == Some(IntToString(port));
    ParseIntToString(port, Int32Min, Int32Max);
    DecodeEncodedPublicKey(p, kp.publicKey);
  }

  /** A well-formed request with a usable key is answered and its key stored. */
  lemma RequestAnswered(p: Primitives, m: Manager, req: ServerMessage, kp: KeyPair, peerKey: Bytes,
                        free: set<int>, now: int)
    requires req.fromUserId.Some? && PeerPublicKey(p, req) == Some(peerKey)
    requires !AllZero(p.x25519(kp.privateKey, peerKey))
    requires FindAvailablePort(free).Some?
    ensures var s := HandleConnectionRequest(p, m, req, kp, free, true, now);
            var from := req.fromUserId.value;
            && s.sent == [ConnectionResponse(p, m, from, kp, FindAvailablePort(free).value, now)]
            && s.events == [IncomingRequest(from)]
            && s.manager.keys == m.keys[from := DeriveConversationKey(p, p.x25519(kp.privateKey, peerKey), m.currentUserId, from)]
  {
  }

  /** An accepting response to a pending handshake stores the key and clears the handshake. */
  lemma ResponseCompletes(p: Primitives, m: Manager, resp: ServerMessage, peerKey: Bytes, sendOk: bool, now: int)
    requires resp.fromUserId.Some? && resp.fromUserId.value in m.pending
    requires DataString(resp, "accepted") == Some("true")
    requires DataString(resp, "p2pPort").Some? && ParseInt(DataString(resp, "p2pPort").value).Some?
    requires PeerPublicKey(p, resp) == Some(peerKey)
    requires !AllZero(p.x25519(m.pending[resp.fromUserId.value].myPrivateKey, peerKey))
    ensures var s := HandleConnectionResponse(p, m, resp, sendOk, now);
            var from := resp.fromUserId.value;
            && s.manager.keys == m.keys[from := DeriveConversationKey(p,
                 p.x25519(m.pending[from].myPrivateKey, peerKey), m.currentUserId, from)]
            && (sendOk ==> s.manager.pending == m.pending - {from} && s.sent == [PeerInfoRequest(m, from, now)])
            && (!sendOk ==> s.manager.pending == m.pending && s.sent == [])
  {
  }

  /** A message sent over a connection whose two ends hold the same key arrives in the
      receiver's queue for the sender with its original content, marked as decrypted. */
  lemma MessageArrivesDecrypted(p: Primitives, sender: Manager, receiver: Manager, target: string,
                                content: string, messageType: string, iv: Bytes, id: string, now: int)
    requires Sound(p) && |iv| == IvLength
    requires target in sender.connections && target in sender.keys && |sender.keys[target]| == KeyLength
    requires sender.currentUserId in receiver.keys
    requires receiver.keys[sender.currentUserId] == sender.keys[target]
    ensures var (ok, _, sent) := SendMessage(p, sender, target, content, messageType, iv, id, now, true);
            var after := ReceiveFrame(p, receiver, sender.currentUserId, Line(sent.value), now);
            && ok
            && GetMessages(after, sender.currentUserId)
               == GetMessages(receiver, sender.currentUserId)
                  + [P2PMessage(id, sender.currentUserId, target, content, messageType, now, false)]
  {
    MessageRoundTrip(p, content, sender.keys[target], iv);
  }

  /** Every transition keeps all stored keys 32 bytes long. */
  lemma TransitionsKeepKeysWellFormed(p: Primitives, m: Manager, msg: ServerMessage, kp: KeyPair,
                                      free: set<int>, sendOk: bool, dialOk: bool, now: int,
                                      peer: string, frame: Frame, target: string, closeOk: bool)
    requires Sound(p) && KeysWellFormed(m)
    ensures KeysWellFormed(HandleServerMessage(p, m, msg, kp, free, sendOk, dialOk, now).manager)
    ensures KeysWellFormed(ReceiveFrame(p, m, peer, frame, now))
    ensures KeysWellFormed(DisconnectFromUser(m, target, closeOk))
  {
  }

  // ---------------------------------------------------------------- as written

  /** A read loop's whole life as written. Dialling happens inside the server listener and
      accepting inside the P2P listener, both before `initialize` reaches
      `startMessageProcessor`, so the processor is not running: the lines reach no queue. */
  function RunReaderAsWritten(p: Primitives, m: Manager, peer: string, frames: seq<Frame>, now: int): (r: Step)
    ensures peer !in r.manager.connections && r.manager.connections.Keys == m.connections.Keys - {peer}
    ensures r.manager.keys == m.keys && r.manager.pending == m.pending && r.manager.queues == m.queues
    ensures r.events == [ConnectionLost(peer)] && r.sent == []
  {
    ReceiveAllUnstarted(p, m, peer, frames, now);
    CloseConnection(ReceiveAllAsWritten(p, m, peer, frames, now, false), peer)
  }

  lemma {:induction false} ReceiveAllUnstarted(p: Primitives, m: Manager, peer: string, frames: seq<Frame>, now: int)
    ensures var r := ReceiveAllAsWritten(p, m, peer, frames, now, false);
            r.queues == m.queues && r.keys == m.keys && r.pending == m.pending
            && r.connections.Keys == m.connections.Keys
    decreases |frames|
  {
    if |frames| > 0 {
      ReceiveAllUnstarted(p, ReceiveFrameAsWritten(p, m, peer, frames[0], now, false), peer, frames[1..], now);
    }
  }

  /** `establishP2PConnection` as written. `startP2PMessageHandler` runs its read loop inside
      `withContext`, so the call returns only once the peer's stream has ended (`frames` are
      the lines read until then) and the loop's `finally` has dropped the connection and
      reported it lost. Only then is the handshake written, to the closed socket (the
      exception is swallowed), and the connection reported established. */
  function EstablishConnectionAsWritten(p: Primitives, m: Manager, target: string, dialOk: bool,
                                        frames: seq<Frame>, now: int): (r: Step)
    ensures !dialOk ==> r == EstablishConnection(m, target, dialOk, now)
    ensures dialOk ==> && !IsConnectedToUser(r.manager, target)
                       && r.events == [ConnectionLost(target), ConnectionEstablished(target)]
    ensures r.sent == [] && r.manager.keys == m.keys && r.manager.pending == m.pending
    ensures r.manager.queues == m.queues
  {
    if !dialOk then Step(m, [], [ConnectionFailed(target)])
    else
      var reader := RunReaderAsWritten(p, EstablishConnection(m, target, true, now).manager, target, frames, now);
      Step(reader.manager, [], reader.events + [ConnectionEstablished(target)])
  }

  /** `handleIncomingP2PConnection` as written: the same order as the dialling side, so the
      connection accepted from `handshakeFrom` is gone, and reported lost, before it is
      reported established. */
  function AcceptConnectionAsWritten(p: Primitives, m: Manager, handshakeFrom: Option<string>,
                                     frames: seq<Frame>, now: int): (r: Step)
    ensures handshakeFrom.None? ==> r == AcceptConnection(m, handshakeFrom, now)
    ensures handshakeFrom.Some? ==>
              && !IsConnectedToUser(r.manager, handshakeFrom.value)
              && r.events == [ConnectionLost(handshakeFrom.value), ConnectionEstablished(handshakeFrom.value)]
    ensures r.sent == [] && r.manager.keys == m.keys && r.manager.pending == m.pending
    ensures r.manager.queues == m.queues
  {
    match handshakeFrom
    case None => Unchanged(m)
    case Some(peer) =>
      var reader := RunReaderAsWritten(p, AcceptConnection(m, handshakeFrom, now).manager, peer, frames, now);
      Step(reader.manager, [], reader.events + [ConnectionEstablished(peer)])
  }

  /** In the corrected order a dialled connection is established first; its read loop then
      queues what the peer sends and ends by reporting the connection lost. */
  lemma DialledConnectionLifecycle(p: Primitives, m: Manager, target: string, frames: seq<Frame>, now: int, userId: string)
    ensures var s := EstablishConnection(m, target, true, now);
            var r := RunReader(p, s.manager, target, frames, now);
            && s.events + r.events == [ConnectionEstablished(target), ConnectionLost(target)]
            && GetMessages(r.manager, userId) == GetMessages(m, userId) + DeliveredFrom(p, m, frames, userId)
  {
    var s := EstablishConnection(m, target, true, now);
    DeliveredFromSameKeys(p, m, s.manager, frames, userId);
  }

  /** As written, a successful dial never leaves a connection to send over: a message to the
      peer is refused even when the conversation key is in place. */
  lemma DialledConnectionLost(p: Primitives, m: Manager, target: string, frames: seq<Frame>, now: int,
                              content: string, messageType: string, iv: Bytes, id: string)
    requires target in m.keys
    ensures var s := EstablishConnectionAsWritten(p, m, target, true, frames, now);
            && s.events[0] == ConnectionLost(target)
            && !SendMessage(p, s.manager, target, content, messageType, iv, id, now, true).0
  {
  }

  /** With the read loop running alongside, a successful dial leaves a connection the
      conversation key can be used over, and reports it established without a loss. */
  lemma DialledConnectionUsable(p: Primitives, m: Manager, target: string, now: int,
                                content: string, messageType: string, iv: Bytes, id: string)
    requires target in m.keys
    ensures var s := EstablishConnection(m, target, true, now);
            && ConnectionLost(target) !in s.events
            && SendMessage(p, s.manager, target, content, messageType, iv, id, now, true).0
  {
  }

  /** Whether `initialize` as written reaches `startMessageProcessor`. `connectToServer`
      returns only when the server session fails or its frame stream ends
      (`serverSessionReturns`), and `startP2PListener` accepts forever once its listening
      socket is open, returning only when no port of 9000..9100 is free. */
  function ProcessorStartsAsWritten(serverSessionReturns: bool, free: set<int>): (started: bool)
    ensures started <==> serverSessionReturns && forall q | PortRangeStart <= q <= PortRangeEnd :: q !in free
  {
    serverSessionReturns && FindAvailablePort(free).None?
  }

  /** One line on a direct connection as written: the reader hands the message to the
      processor's channel, which only reaches the queues when the processor was started. */
  function ReceiveFrameAsWritten(p: Primitives, m: Manager, peer: string, frame: Frame, now: int,
                                 processorStarted: bool): (r: Manager)
    ensures processorStarted ==> r == ReceiveFrame(p, m, peer, frame, now)
    ensures !processorStarted ==> r.queues == m.queues && r.keys == m.keys && r.pending == m.pending
    ensures r.connections.Keys == m.connections.Keys
  {
    if processorStarted then ReceiveFrame(p, m, peer, frame, now)
    else if frame.Garbage? then m
    else Touch(m, peer, now)
  }

  /** The read loop as written. */
  function ReceiveAllAsWritten(p: Primitives, m: Manager, peer: string, frames: seq<Frame>, now: int,
                               processorStarted: bool): Manager
    decreases |frames|
  {
    if |frames| == 0 then m
    else ReceiveAllAsWritten(p, ReceiveFrameAsWritten(p, m, peer, frames[0], now, processorStarted),
                             peer, frames[1..], now, processorStarted)
  }

  /** As written, whenever the listening socket opens no line ever reaches a queue, so
      `getMessages` keeps returning what it returned before. */
  lemma {:induction false} MessagesNeverQueued(p: Primitives, m: Manager, peer: string, frames: seq<Frame>, now: int,
                                               serverSessionReturns: bool, free: set<int>, userId: string)
    requires FindAvailablePort(free).Some?
    ensures GetMessages(ReceiveAllAsWritten(p, m, peer, frames, now, ProcessorStartsAsWritten(serverSessionReturns, free)), userId)
            == GetMessages(m, userId)
    decreases |frames|
  {
    if |frames| > 0 {
      var started := ProcessorStartsAsWritten(serverSessionReturns, free);
      MessagesNeverQueued(p, ReceiveFrameAsWritten(p, m, peer, frames[0], now, started), peer, frames[1..], now,
                          serverSessionReturns, free, userId);
    }
  }

  /** The message of `MessageArrivesDecrypted`, read as written while the listener is open:
      the receiver's queue for the sender stays as it was, one short of what the corrected
      reader delivers. */
  lemma SentMessageNeverArrives(p: Primitives, sender: Manager, receiver: Manager, target: string,
                                content: string, messageType: string, iv: Bytes, id: string, now: int,
                                serverSessionReturns: bool, free: set<int>)
    requires Sound(p) && |iv| == IvLength
    requires target in sender.connections && target in sender.keys && |sender.keys[target]| == KeyLength
    requires sender.currentUserId in receiver.keys
    requires receiver.keys[sender.currentUserId] == sender.keys[target]
    requires FindAvailablePort(free).Some?
    ensures var (ok, _, sent) := SendMessage(p, sender, target, content, messageType, iv, id, now, true);
            var started := ProcessorStartsAsWritten(serverSessionReturns, free);
            var after := ReceiveFrameAsWritten(p, receiver, sender.currentUserId, Line(sent.value), now, started);
            && ok
            && GetMessages(after, sender.currentUserId) == GetMessages(receiver, sender.currentUserId)
            && |GetMessages(ReceiveFrame(p, receiver, sender.currentUserId, Line(sent.value), now), sender.currentUserId)|
               == |GetMessages(after, sender.currentUserId)| + 1
  {
    MessageArrivesDecrypted(p, sender, receiver, target, content, messageType, iv, id, now);
  }
}
