/** The Rust relay server's registry of clients and rooms and its request handlers.

    Each handler is one atomic transition of the registry that also returns the replies it
    queues, addressed to their recipients, in order. Fresh UUIDs and the clock are
    parameters. */
module Relay {
  import opened Wrappers
  import Crypto

  type ClientId = string

  datatype Client = Client(username: string, publicKey: Crypto.Bytes, isAuthenticated: bool)

  datatype EncryptedMessage = EncryptedMessage(
    id: string,
    senderId: ClientId,
    senderUsername: string,
    roomId: string,
    encryptedContent: string,
    timestamp: int,
    messageType: string
  )

  datatype Room = Room(id: string, name: string, members: seq<ClientId>, messages: seq<EncryptedMessage>, createdAt: int)

  datatype Server = Server(clients: map<ClientId, Client>, rooms: map<string, Room>)

  /** A request as the client sends it; every field but the type may be absent. */
  datatype ClientMessage = ClientMessage(
    messageType: string,
    username: Option<string>,
    roomId: Option<string>,
    roomName: Option<string>,
    content: Option<string>,
    encryptedContent: Option<string>,
    publicKey: Option<string>,
    contentType: Option<string>
  )

  datatype Reply =
    | RegisterSuccess(userId: ClientId, username: string)
    | AuthSuccess(userId: ClientId)
    | RoomCreated(roomId: string)
    | RoomJoined(roomId: string)
    /** `new_message`, broadcast when a message is posted. */
    | NewMessage(senderId: ClientId, senderName: string, roomId: string, content: string, timestamp: int)
    /** `message`, one per stored message of a history request. */
    | Stored(senderId: ClientId, senderName: string, roomId: string, content: string, timestamp: int)

  datatype Outgoing = Outgoing(to: ClientId, reply: Reply)

  /** A handler's new registry and the replies it queued. */
  datatype Handled = Handled(server: Server, out: seq<Outgoing>)

  /** The error a handler returns: only registration can fail, on a public key that is not
      Base64. */
  datatype RelayError = InvalidBase64

  /** `Server::new`: no clients and no rooms. */
  const Empty := Server(map[], map[])

  predicate NoDuplicates<T(==)>(xs: seq<T>) {
    forall i, j | 0 <= i < j < |xs| :: xs[i] != xs[j]
  }

  /** What every handler keeps: rooms are stored under their own id, member lists have no
      duplicates, and every member is a connected client. */
  predicate Valid(s: Server) {
    forall k | k in s.rooms ::
      && s.rooms[k].id == k
      && NoDuplicates(s.rooms[k].members)
      && forall i | 0 <= i < |s.rooms[k].members| :: s.rooms[k].members[i] in s.clients
  }

  predicate Authenticated(s: Server, id: ClientId) {
    id in s.clients && s.clients[id].isAuthenticated
  }

  /** `handle_register`: with both a username and a public key, store the client as
      authenticated (replacing an earlier registration of the same connection) and confirm;
      a key that is not Base64 is an error and changes nothing. */
  function Register(p: Crypto.Primitives, s: Server, id: ClientId, req: ClientMessage): (r: Result<Handled, RelayError>)
    ensures req.username.None? || req.publicKey.None? ==> r == Success(Handled(s, []))
    ensures req.username.Some? && req.publicKey.Some? ==>
              (r.Failure? <==> p.base64Decode(req.publicKey.value).None?)
    ensures r.Success? && req.username.Some? && req.publicKey.Some? ==>
              && r.value.server.rooms == s.rooms
              && r.value.server.clients.Keys == s.clients.Keys + {id}
              && Authenticated(r.value.server, id)
              && r.value.server.clients[id].username == req.username.value
              && Some(r.value.server.clients[id].publicKey) == p.base64Decode(req.publicKey.value)
              && (forall c | c in s.clients && c != id :: r.value.server.clients[c] == s.clients[c])
              && r.value.out == [Outgoing(id, RegisterSuccess(id, req.username.value))]
  {
    if req.username.None? || req.publicKey.None? then Success(Handled(s, []))
    else
      match p.base64Decode(req.publicKey.value)
      case None => Failure(InvalidBase64)
      case Some(key) =>
        var client := Client(req.username.value, key, true);
        Success(Handled(s.(clients := s.clients[id := client]), [Outgoing(id, RegisterSuccess(id, req.username.value))]))
  }

  /** `handle_create_room`: an authenticated client creates the room (named `Room <id>` by
      default) with itself as only member; an existing room of that id is replaced. */
  function CreateRoom(s: Server, id: ClientId, req: ClientMessage, freshId: string, now: int): (r: Handled)
    ensures !Authenticated(s, id) ==> r == Handled(s, [])
    ensures Authenticated(s, id) ==>
              var roomId := req.roomId.GetOr(freshId);
              && r.server.clients == s.clients
              && r.server.rooms.Keys == s.rooms.Keys + {roomId}
              && r.server.rooms[roomId].id == roomId
              && r.server.rooms[roomId].members == [id]
              && r.server.rooms[roomId].messages == []
              && (forall k | k in s.rooms && k != roomId :: r.server.rooms[k] == s.rooms[k])
              && r.out == [Outgoing(id, RoomCreated(roomId))]
  {
    if !Authenticated(s, id) then Handled(s, [])
    else
      var roomId := req.roomId.GetOr(freshId);
      var room := Room(roomId, req.roomName.GetOr("Room " + roomId), [id], [], now);
      Handled(s.(rooms := s.rooms[roomId := room]), [Outgoing(id, RoomCreated(roomId))])
  }

  /** `handle_join_room`: an authenticated client joins an existing room, added at the end
      unless it is already a member. */
  function JoinRoom(s: Server, id: ClientId, req: ClientMessage): (r: Handled)
    ensures !Authenticated(s, id) || req.roomId.None? || req.roomId.value !in s.rooms ==> r == Handled(s, [])
    ensures Authenticated(s, id) && req.roomId.Some? && req.roomId.value in s.rooms ==>
              var before := s.rooms[req.roomId.value];
              && r.server.clients == s.clients
              && r.server.rooms.Keys == s.rooms.Keys
              && (forall k | k in s.rooms && k != req.roomId.value :: r.server.rooms[k] == s.rooms[k])
              && r.server.rooms[req.roomId.value].messages == before.messages
              && r.server.rooms[req.roomId.value].id == before.id
              && (id in before.members ==> r.server.rooms[req.roomId.value].members == before.members)
              && (id !in before.members ==> r.server.rooms[req.roomId.value].members == before.members + [id])
              && r.out == [Outgoing(id, RoomJoined(req.roomId.value))]
  {
    if !Authenticated(s, id) || req.roomId.None? || req.roomId.value !in s.rooms then Handled(s, [])
    else
      var roomId := req.roomId.value;
      var room := s.rooms[roomId];
      var members := if id in room.members then room.members else room.members + [id];
      Handled(s.(rooms := s.rooms[roomId := room.(members := members)]), [Outgoing(id, RoomJoined(roomId))])
  }

  /** The members that are connected clients, in member order. */
  function Connected(members: seq<ClientId>, clients: map<ClientId, Client>): (r: seq<ClientId>)
    ensures forall c :: c in r <==> c in members && c in clients
    ensures |r| <= |members|
    ensures NoDuplicates(members) ==> NoDuplicates(r)
  {
    if |members| == 0 then []
    else
      var rest := Connected(members[1..], clients);
      assert forall c :: c in members <==> c == members[0] || c in members[1..];
      if members[0] in clients then [members[0]] + rest else rest
  }

  /** Every member of a valid room is connected, so a broadcast reaches all of them. */
  lemma {:induction false} ConnectedAll(members: seq<ClientId>, clients: map<ClientId, Client>)
    requires forall i | 0 <= i < |members| :: members[i] in clients
    ensures Connected(members, clients) == members
  {
    if |members| > 0 {
      ConnectedAll(members[1..], clients);
      assert members == [members[0]] + members[1..];
    }
  }

  /** `handle_send_message`: an authenticated client with a room id and content appends the
      message to an existing room and the server sends `new_message` to each member that is
      connected; membership of the sender is not checked. */
  function SendMessage(s: Server, id: ClientId, req: ClientMessage, messageId: string, now: int): (r: Handled)
    ensures (|| !Authenticated(s, id) || req.roomId.None? || req.encryptedContent.None?
             || req.roomId.value !in s.rooms) ==> r == Handled(s, [])
    ensures (&& Authenticated(s, id) && req.roomId.Some? && req.encryptedContent.Some?
             && req.roomId.value in s.rooms) ==>
              var before := s.rooms[req.roomId.value];
              var msg := EncryptedMessage(messageId, id, s.clients[id].username, req.roomId.value,
                                          req.encryptedContent.value, now, req.contentType.GetOr("text"));
              && r.server.clients == s.clients
              && r.server.rooms.Keys == s.rooms.Keys
              && (forall k | k in s.rooms && k != req.roomId.value :: r.server.rooms[k] == s.rooms[k])
              && r.server.rooms[req.roomId.value] == before.(messages := before.messages + [msg])
              && |r.out| == |Connected(before.members, s.clients)|
              && (forall i | 0 <= i < |r.out| ::
                    r.out[i] == Outgoing(Connected(before.members, s.clients)[i],
                                         NewMessage(id, msg.senderUsername, msg.roomId, msg.encryptedContent, now)))
  {
    if || !Authenticated(s, id) || req.roomId.None? || req.encryptedContent.None?
       || req.roomId.value !in s.rooms then Handled(s, [])
    else
      var roomId := req.roomId.value;
      var room := s.rooms[roomId];
      var username := s.clients[id].username;
      var msg := EncryptedMessage(messageId, id, username, roomId, req.encryptedContent.value, now,
                                  req.contentType.GetOr("text"));
      var recipients := Connected(room.members, s.clients);
      var reply := NewMessage(id, username, roomId, msg.encryptedContent, now);
      Handled(s.(rooms := s.rooms[roomId := room.(messages := room.messages + [msg])]),
              seq(|recipients|, i requires 0 <= i < |recipients| => Outgoing(recipients[i], reply)))
  }

  /** The history reply for one stored message. */
  function StoredReply(m: EncryptedMessage): Reply {
    Stored(m.senderId, m.senderUsername, m.roomId, m.encryptedContent, m.timestamp)
  }

  /** `handle_get_messages`: a member receives the room's messages in stored order; anyone
      else receives nothing. The registry never changes. */
  function GetMessages(s: Server, id: ClientId, req: ClientMessage): (r: Handled)
    ensures r.server == s
    ensures (|| !Authenticated(s, id) || req.roomId.None? || req.roomId.value !in s.rooms
             || id !in s.rooms[req.roomId.value].members) ==> r.out == []
    ensures (&& Authenticated(s, id) && req.roomId.Some? && req.roomId.value in s.rooms
             && id in s.rooms[req.roomId.value].members) ==>
              && |r.out| == |s.rooms[req.roomId.value].messages|
              && forall i | 0 <= i < |r.out| ::
                   r.out[i] == Outgoing(id, StoredReply(s.rooms[req.roomId.value].messages[i]))
  {
    if || !Authenticated(s, id) || req.roomId.None? || req.roomId.value !in s.rooms
       || id !in s.rooms[req.roomId.value].members then Handled(s, [])
    else
      var messages := s.rooms[req.roomId.value].messages;
      Handled(s, seq(|messages|, i requires 0 <= i < |messages| => Outgoing(id, StoredReply(messages[i]))))
  }

  /** `members.retain(|&m| m != id)`. */
  function Without(members: seq<ClientId>, id: ClientId): (r: seq<ClientId>)
    ensures forall c :: c in r <==> c in members && c != id
    ensures NoDuplicates(members) ==> NoDuplicates(r)
    ensures id !in members ==> r == members
  {
    if |members| == 0 then []
    else
      var rest := Without(members[1..], id);
      assert members == [members[0]] + members[1..];
      if members[0] == id then rest
      else
        assert NoDuplicates(members) ==> members[0] !in members[1..];
        [members[0]] + rest
  }

  /** `cleanup_client`: the client leaves every room and the registry. */
  function CleanupClient(s: Server, id: ClientId): (r: Server)
    ensures r.clients == s.clients - {id}
    ensures r.rooms.Keys == s.rooms.Keys
    ensures forall k | k in s.rooms ::
              && r.rooms[k] == s.rooms[k].(members := r.rooms[k].members)
              && (forall c :: c in r.rooms[k].members <==> c in s.rooms[k].members && c != id)
  {
    Server(s.clients - {id}, map k | k in s.rooms :: s.rooms[k].(members := Without(s.rooms[k].members, id)))
  }

  /** `handle_message`: dispatch on the lower-case request type; `authenticate` always
      succeeds and unknown types are ignored. */
  function HandleMessage(p: Crypto.Primitives, s: Server, id: ClientId, req: ClientMessage, freshId: string, now: int): (r: Result<Handled, RelayError>)
    ensures r.Failure? ==> req.messageType == "register"
    ensures req.messageType !in {"register", "authenticate", "send_message", "create_room", "join_room", "get_messages"} ==>
              r == Success(Handled(s, []))
  {
    match req.messageType
    case "register" => Register(p, s, id, req)
    case "authenticate" => Success(Handled(s, [Outgoing(id, AuthSuccess(id))]))
    case "send_message" => Success(SendMessage(s, id, req, freshId, now))
    case "create_room" => Success(CreateRoom(s, id, req, freshId, now))
    case "join_room" => Success(JoinRoom(s, id, req))
    case "get_messages" => Success(GetMessages(s, id, req))
    case _ => Success(Handled(s, []))
  }

  // ---------------------------------------------------------------- the invariant

  lemma RegisterKeepsValid(p: Crypto.Primitives, s: Server, id: ClientId, req: ClientMessage)
    requires Valid(s)
    ensures Register(p, s, id, req).Success? ==> Valid(Register(p, s, id, req).value.server)
  {
  }

  lemma CreateRoomKeepsValid(s: Server, id: ClientId, req: ClientMessage, freshId: string, now: int)
    requires Valid(s)
    ensures Valid(CreateRoom(s, id, req, freshId, now).server)
  {
  }

  lemma JoinRoomKeepsValid(s: Server, id: ClientId, req: ClientMessage)
    requires Valid(s)
    ensures Valid(JoinRoom(s, id, req).server)
  {
    if Authenticated(s, id) && req.roomId.Some? && req.roomId.value in s.rooms {
      var room := s.rooms[req.roomId.value];
      if id !in room.members {
        var members := room.members + [id];
        assert forall i | 0 <= i < |room.members| :: members[i] == room.members[i];
      }
    }
  }

  lemma SendMessageKeepsValid(s: Server, id: ClientId, req: ClientMessage, messageId: string, now: int)
    requires Valid(s)
    ensures Valid(SendMessage(s, id, req, messageId, now).server)
  {
  }

  lemma CleanupKeepsValid(s: Server, id: ClientId)
    requires Valid(s)
    ensures Valid(CleanupClient(s, id))
  {
    var r := CleanupClient(s, id);
    forall k | k in r.rooms
      ensures forall i | 0 <= i < |r.rooms[k].members| :: r.rooms[k].members[i] in r.clients
    {
      forall i | 0 <= i < |r.rooms[k].members|
        ensures r.rooms[k].members[i] in r.clients
      {
        var c := r.rooms[k].members[i];
        assert c in s.rooms[k].members && c != id;
        var j :| 0 <= j < |s.rooms[k].members| && s.rooms[k].members[j] == c;
      }
    }
  }

  /** The registry a server starts with is valid. */
  lemma EmptyValid()
    ensures Valid(Empty) && Empty.clients == map[] && Empty.rooms == map[]
  {
  }

  /** Every request keeps the registry valid, starting from the empty one. */
  lemma HandleMessageKeepsValid(p: Crypto.Primitives, s: Server, id: ClientId, req: ClientMessage, freshId: string, now: int)
    requires Valid(s)
    ensures HandleMessage(p, s, id, req, freshId, now).Success? ==>
              Valid(HandleMessage(p, s, id, req, freshId, now).value.server)
  {
    RegisterKeepsValid(p, s, id, req);
    CreateRoomKeepsValid(s, id, req, freshId, now);
    JoinRoomKeepsValid(s, id, req);
    SendMessageKeepsValid(s, id, req, freshId, now);
  }

  // ---------------------------------------------------------------- delivery

  /** In a valid registry a posted message reaches every member of the room exactly once, in
      member order, and nobody else. */
  lemma PostReachesEveryMember(s: Server, id: ClientId, req: ClientMessage, messageId: string, now: int)
    requires Valid(s)
    requires Authenticated(s, id) && req.roomId.Some? && req.encryptedContent.Some? && req.roomId.value in s.rooms
    ensures var r := SendMessage(s, id, req, messageId, now);
            var members := s.rooms[req.roomId.value].members;
            && |r.out| == |members|
            && forall i | 0 <= i < |members| :: r.out[i].to == members[i]
  {
    ConnectedAll(s.rooms[req.roomId.value].members, s.clients);
  }

  /** Posting needs no membership: a client outside the room still appends to it, and is not
      among the recipients. */
  lemma OutsiderCanPost(s: Server, id: ClientId, req: ClientMessage, messageId: string, now: int)
    requires Authenticated(s, id) && req.roomId.Some? && req.encryptedContent.Some? && req.roomId.value in s.rooms
    requires id !in s.rooms[req.roomId.value].members
    ensures var r := SendMessage(s, id, req, messageId, now);
            && |r.server.rooms[req.roomId.value].messages| == |s.rooms[req.roomId.value].messages| + 1
            && forall i | 0 <= i < |r.out| :: r.out[i].to != id
  {
    var r := SendMessage(s, id, req, messageId, now);
    forall i | 0 <= i < |r.out|
      ensures r.out[i].to != id
    {
      assert r.out[i].to in Connected(s.rooms[req.roomId.value].members, s.clients);
    }
  }

  /** Leaving after joining: once the client is cleaned up, no room lists it and its
      history request is refused. */
  lemma CleanupRevokesAccess(s: Server, id: ClientId, req: ClientMessage)
    ensures var r := CleanupClient(s, id);
            && (forall k | k in r.rooms :: id !in r.rooms[k].members)
            && GetMessages(r, id, req).out == []
  {
  }
}
