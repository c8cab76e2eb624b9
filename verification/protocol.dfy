/** The messages exchanged with the signalling server. */
module Protocol {
  import opened Wrappers

  /** Every kind of signalling message. */
  datatype MessageType =
    | REGISTER | UNREGISTER | HEARTBEAT
    | CONNECTION_REQUEST | CONNECTION_RESPONSE | CONNECTION_ACCEPTED | CONNECTION_REJECTED
    | USER_LIST | USER_STATUS | PEER_INFO
    | P2P_OFFER | P2P_ANSWER | P2P_ICE_CANDIDATE
    | ERROR | SUCCESS | NOTIFICATION

  /** A value of the message's data map: the receivers only ever accept strings
      (`as? String`), so every other value is one case. */
  datatype Value = Str(s: string) | NonString

  /** A signalling message; `data` and the user ids may be absent. */
  datatype ServerMessage = ServerMessage(
    msgType: MessageType,
    fromUserId: Option<string>,
    toUserId: Option<string>,
    data: Option<map<string, Value>>,
    timestamp: int
  )

  /** `message.data?.get(key) as? String`. */
  function DataString(msg: ServerMessage, key: string): (r: Option<string>)
    ensures r.Some? <==> msg.data.Some? && key in msg.data.value && msg.data.value[key].Str?
    ensures r.Some? ==> msg.data.value[key] == Str(r.value)
  {
    match msg.data
    case None => None
    case Some(d) => if key in d && d[key].Str? then Some(d[key].s) else None
  }
}
